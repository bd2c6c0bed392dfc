/** The language of a nondeterministic automaton with ε-arcs, as pure
    functions over its arc set: the ε-closure, the set simulation that
    reads a word, and acceptance. */
module Language {
  import opened Base
  import opened Collections

  /** An automaton as a value: its arcs, its start states and its final
      states. */
  datatype Nfa = Nfa(trans: set<Transition>, starts: set<State>, finals: set<State>)

  /** True iff `C` has no ε-arc leaving it. */
  predicate Closed(T: set<Transition>, C: set<State>)
  {
    Post(T, C, Epsilon) <= C
  }

  /** The ε-closure of `S`: the states reachable from `S` by ε-arcs alone. */
  function Closure(T: set<Transition>, S: set<State>): (C: set<State>)
    ensures S <= C && Closed(T, C)
    ensures C <= S + Targets(T)
    decreases Targets(T) - S
  {
    var next := Post(T, S, Epsilon);
    if next <= S then S
    else
      var x :| x in next && x !in S;
      assert x in Targets(T) - S && x !in Targets(T) - (S + next);
      Closure(T, S + next)
  }

  /** The states occupied after reading `w` from the state set `S`; ε
      entries of the word are skipped, and every real symbol is followed by
      the ε-closure of its successors. */
  function Run(T: set<Transition>, S: set<State>, w: seq<Symbol>): set<State>
    decreases |w|
  {
    if w == [] then S
    else if w[0] == Epsilon then Run(T, S, w[1..])
    else Run(T, Closure(T, Post(T, S, w[0])), w[1..])
  }

  /** The states occupied after reading `w` from the closure of the starts. */
  function Reach(A: Nfa, w: seq<Symbol>): set<State>
  {
    Run(A.trans, Closure(A.trans, A.starts), w)
  }

  /** `w` is accepted iff reading it can end in a final state. */
  predicate Accepts(A: Nfa, w: seq<Symbol>)
  {
    Reach(A, w) * A.finals != {}
  }

  /** The ε-closure is the least ε-closed superset. */
  lemma {:induction false} ClosureLeast(T: set<Transition>, S: set<State>, D: set<State>)
    requires S <= D && Closed(T, D)
    ensures Closure(T, S) <= D
    decreases Targets(T) - S
  {
    var next := Post(T, S, Epsilon);
    if !(next <= S) {
      assert next <= Post(T, D, Epsilon);
      var x :| x in next && x !in S;
      assert x in Targets(T) - S && x !in Targets(T) - (S + next);
      ClosureLeast(T, S + next, D);
    }
  }

  /** A closed set is its own closure. */
  lemma ClosureOfClosed(T: set<Transition>, C: set<State>)
    requires Closed(T, C)
    ensures Closure(T, C) == C
  {
    ClosureLeast(T, C, C);
  }

  /** The closure grows with the set it starts from. */
  lemma ClosureMono(T: set<Transition>, S: set<State>, D: set<State>)
    requires S <= D
    ensures Closure(T, S) <= Closure(T, D)
  {
    ClosureLeast(T, S, Closure(T, D));
  }

  /** The closure grows with the arcs. */
  lemma ClosureMonoArcs(T: set<Transition>, U: set<Transition>, S: set<State>)
    requires T <= U
    ensures Closure(T, S) <= Closure(U, S)
  {
    assert Post(T, Closure(U, S), Epsilon) <= Post(U, Closure(U, S), Epsilon);
    ClosureLeast(T, S, Closure(U, S));
  }

  /** One symbol step distributes over a union of state sets. */
  lemma PostUnion(T: set<Transition>, S: set<State>, D: set<State>, a: Symbol)
    ensures Post(T, S + D, a) == Post(T, S, a) + Post(T, D, a)
  {
  }

  /** The closure of a union is the union of the closures. */
  lemma ClosureUnion(T: set<Transition>, S: set<State>, D: set<State>)
    ensures Closure(T, S + D) == Closure(T, S) + Closure(T, D)
  {
    ClosureMono(T, S, S + D);
    ClosureMono(T, D, S + D);
    PostUnion(T, Closure(T, S), Closure(T, D), Epsilon);
    ClosureLeast(T, S + D, Closure(T, S) + Closure(T, D));
  }

  /** A state is in the closure of a set iff it is in the closure of one of
      its members. */
  lemma ClosurePointwise(T: set<Transition>, S: set<State>, x: State)
    ensures x in Closure(T, S) <==> exists s :: s in S && x in Closure(T, {s})
  {
    var D := set s, y | s in S && y in Closure(T, {s}) :: y;
    forall s | s in S
      ensures Closure(T, {s}) <= Closure(T, S)
    {
      ClosureMono(T, {s}, S);
    }
    forall y | y in Post(T, D, Epsilon)
      ensures y in D
    {
      var t :| t in T && t.from in D && t.sym == Epsilon && t.to == y;
      var s :| s in S && t.from in Closure(T, {s});
      assert y in Post(T, Closure(T, {s}), Epsilon);
    }
    forall s | s in S
      ensures s in D
    {
      assert s in Closure(T, {s});
    }
    ClosureLeast(T, S, D);
  }

  /** Reading a word distributes over a union of start sets. */
  lemma {:induction false} RunUnion(T: set<Transition>, S: set<State>, D: set<State>, w: seq<Symbol>)
    ensures Run(T, S + D, w) == Run(T, S, w) + Run(T, D, w)
    decreases |w|
  {
    if w != [] {
      if w[0] == Epsilon {
        RunUnion(T, S, D, w[1..]);
      } else {
        PostUnion(T, S, D, w[0]);
        ClosureUnion(T, Post(T, S, w[0]), Post(T, D, w[0]));
        RunUnion(T, Closure(T, Post(T, S, w[0])), Closure(T, Post(T, D, w[0])), w[1..]);
      }
    }
  }

  /** Nothing is reached from nothing. */
  lemma ClosureEmpty(T: set<Transition>)
    ensures Closure(T, {}) == {}
  {
    assert Closed(T, {});
    ClosureOfClosed(T, {});
  }

  /** Reading a word from the empty set reaches nothing. */
  lemma {:induction false} RunEmpty(T: set<Transition>, w: seq<Symbol>)
    ensures Run(T, {}, w) == {}
    decreases |w|
  {
    if w != [] {
      if w[0] != Epsilon {
        assert Post(T, {}, w[0]) == {};
        ClosureEmpty(T);
      }
      RunEmpty(T, w[1..]);
    }
  }

  /** A step that leads anywhere starts from a non-empty set. */
  lemma StepFromNonEmpty(T: set<Transition>, Y: set<State>, a: Symbol, w: seq<Symbol>, F: set<State>)
    requires Run(T, Closure(T, Post(T, Y, a)), w) * F != {}
    ensures Y != {}
  {
    if Y == {} {
      assert Post(T, Y, a) == {};
      ClosureEmpty(T);
      RunEmpty(T, w);
    }
  }

  /** Reading a word is monotone in the start set. */
  lemma RunMono(T: set<Transition>, S: set<State>, D: set<State>, w: seq<Symbol>)
    requires S <= D
    ensures Run(T, S, w) <= Run(T, D, w)
  {
    RunUnion(T, S, D - S, w);
    assert S + (D - S) == D;
  }

  /** Reading a word is monotone in the arcs. */
  lemma {:induction false} RunMonoArcs(T: set<Transition>, U: set<Transition>, S: set<State>, D: set<State>, w: seq<Symbol>)
    requires T <= U && S <= D
    ensures Run(T, S, w) <= Run(U, D, w)
    decreases |w|
  {
    if w == [] {
    } else if w[0] == Epsilon {
      RunMonoArcs(T, U, S, D, w[1..]);
    } else {
      var P := Post(T, S, w[0]);
      var Q := Post(U, D, w[0]);
      assert P <= Q;
      ClosureMonoArcs(T, U, P);
      ClosureMono(U, P, Q);
      RunMonoArcs(T, U, Closure(T, P), Closure(U, Q), w[1..]);
    }
  }

  /** Reading `u + v` is reading `u`, then `v`. */
  lemma {:induction false} RunAppend(T: set<Transition>, S: set<State>, u: seq<Symbol>, v: seq<Symbol>)
    ensures Run(T, S, u + v) == Run(T, Run(T, S, u), v)
    decreases |u|
  {
    if u == [] {
      assert u + v == v;
    } else {
      assert (u + v)[0] == u[0] && (u + v)[1..] == u[1..] + v;
      if u[0] == Epsilon {
        RunAppend(T, S, u[1..], v);
      } else {
        RunAppend(T, Closure(T, Post(T, S, u[0])), u[1..], v);
      }
    }
  }
  /** Reading one more symbol of `w`: ε keeps the states, any other symbol
      moves to the closure of its successors. */
  lemma RunStep(T: set<Transition>, S: set<State>, w: seq<Symbol>, i: nat)
    requires i < |w|
    ensures Run(T, S, w[..i + 1]) == if w[i] == Epsilon then Run(T, S, w[..i])
                                     else Closure(T, Post(T, Run(T, S, w[..i]), w[i]))
  {
    RunAppend(T, S, w[..i], [w[i]]);
    assert w[..i + 1] == w[..i] + [w[i]];
    assert [w[i]][1..] == [];
  }


  /** Reading the first `i + 1` symbols of `w` is reading its first symbol,
      then the next `i`. */
  lemma RunHead(T: set<Transition>, S: set<State>, w: seq<Symbol>, i: nat)
    requires i < |w|
    ensures Run(T, S, w[..i + 1]) == if w[0] == Epsilon then Run(T, S, w[1..][..i])
                                     else Run(T, Closure(T, Post(T, S, w[0])), w[1..][..i])
  {
    var u := w[..i + 1];
    assert u[0] == w[0] && u[1..] == w[1..][..i];
  }

  /** Reading a word from a closed set ends in a closed set. */
  lemma {:induction false} RunClosed(T: set<Transition>, S: set<State>, w: seq<Symbol>)
    requires Closed(T, S)
    ensures Closed(T, Run(T, S, w))
    decreases |w|
  {
    if w != [] {
      if w[0] == Epsilon {
        RunClosed(T, S, w[1..]);
      } else {
        RunClosed(T, Closure(T, Post(T, S, w[0])), w[1..]);
      }
    }
  }

  /** Adding arcs, start states or final states never loses a word. */
  lemma AcceptsMono(A: Nfa, B: Nfa, w: seq<Symbol>)
    requires A.trans <= B.trans && A.starts <= B.starts && A.finals <= B.finals
    requires Accepts(A, w)
    ensures Accepts(B, w)
  {
    ClosureMonoArcs(A.trans, B.trans, A.starts);
    ClosureMono(B.trans, A.starts, B.starts);
    RunMonoArcs(A.trans, B.trans, Closure(A.trans, A.starts), Closure(B.trans, B.starts), w);
  }

  /** The empty word is accepted iff the closure of the starts meets the
      finals. */
  lemma AcceptsEmpty(A: Nfa)
    ensures Accepts(A, []) <==> Closure(A.trans, A.starts) * A.finals != {}
  {
  }

  /** ε entries of a word make no difference. */
  lemma AcceptsSkipsEpsilon(A: Nfa, u: seq<Symbol>, v: seq<Symbol>)
    ensures Accepts(A, u + [Epsilon] + v) <==> Accepts(A, u + v)
  {
    var S := Closure(A.trans, A.starts);
    RunAppend(A.trans, S, u, [Epsilon] + v);
    RunAppend(A.trans, S, u, v);
    assert u + [Epsilon] + v == u + ([Epsilon] + v);
    assert ([Epsilon] + v)[1..] == v;
  }

  /** `s` reaches no other state by ε-arcs. */
  ghost predicate Alone(T: set<Transition>, s: State)
  {
    |Closure(T, {s})| <= 1
  }

  /** At most one start, no two arcs out of a state on one symbol, and no
      ε-arc leading away from a known state. */
  ghost predicate DeterministicNfa(A: Nfa)
  {
    && |A.starts| <= 1
    && Functional(A.trans)
    && forall s :: s in Endpoints(A.trans) ==> Alone(A.trans, s)
  }

  /** Under the last condition every set of states is ε-closed. */
  lemma DeterministicClosed(A: Nfa, S: set<State>)
    requires DeterministicNfa(A)
    ensures Closure(A.trans, S) == S
  {
    forall y | y in Post(A.trans, S, Epsilon)
      ensures y in S
    {
      var t :| t in A.trans && t.from in S && t.sym == Epsilon && t.to == y;
      var C := Closure(A.trans, {t.from});
      assert t.to in Post(A.trans, {t.from}, Epsilon) && t.from in C;
      assert t.from in Endpoints(A.trans) && Alone(A.trans, t.from);
      AtMostOne(C, t.from, t.to);
    }
    ClosureOfClosed(A.trans, S);
  }

  /** One step of a functional relation from at most one state reaches at
      most one state. */
  lemma FunctionalPost(T: set<Transition>, S: set<State>, a: Symbol)
    requires Functional(T) && |S| <= 1
    ensures |Post(T, S, a)| <= 1
  {
    var P := Post(T, S, a);
    if |P| > 1 {
      var x, y := TwoMembers(P);
      var t :| t in T && t.from in S && t.sym == a && t.to == x;
      var u :| u in T && u.from in S && u.sym == a && u.to == y;
      AtMostOne(S, t.from, u.from);
    }
  }

  /** A deterministic automaton is in at most one state after any word. */
  lemma {:induction false} DeterministicRun(A: Nfa, S: set<State>, w: seq<Symbol>)
    requires DeterministicNfa(A) && |S| <= 1
    ensures |Run(A.trans, S, w)| <= 1
    decreases |w|
  {
    if w != [] {
      if w[0] == Epsilon {
        DeterministicRun(A, S, w[1..]);
      } else {
        var P := Post(A.trans, S, w[0]);
        FunctionalPost(A.trans, S, w[0]);
        DeterministicClosed(A, P);
        DeterministicRun(A, P, w[1..]);
      }
    }
  }

  /** Hence reading a word never holds more than one state. */
  lemma DeterministicReach(A: Nfa, w: seq<Symbol>)
    requires DeterministicNfa(A)
    ensures |Reach(A, w)| <= 1
  {
    DeterministicClosed(A, A.starts);
    DeterministicRun(A, A.starts, w);
  }
}
