/** The automaton algebra as pure constructions on automaton values: the
    renumbering of the other operand past the largest state of this one,
    and the union, concatenation and star built from it; with what each
    does to the accepted language. */
module Algebra {
  import opened Base
  import opened Collections
  import opened Language

  /** Every start and final state of `A` is an endpoint of an arc: the shape
      every automaton of the library keeps. */
  ghost predicate WellFormed(A: Nfa)
  {
    A.starts <= Endpoints(A.trans) && A.finals <= Endpoints(A.trans)
  }

  function ShiftSet(S: set<State>, k: nat): set<State>
  {
    set s | s in S :: s + k
  }

  function ShiftArc(t: Transition, k: nat): Transition
  {
    Transition(t.from + k, t.sym, t.to + k)
  }

  function ShiftArcs(T: set<Transition>, k: nat): set<Transition>
  {
    set t | t in T :: ShiftArc(t, k)
  }

  /** `A` with every state renumbered `k` higher. */
  function Shift(A: Nfa, k: nat): Nfa
  {
    Nfa(ShiftArcs(A.trans, k), ShiftSet(A.starts, k), ShiftSet(A.finals, k))
  }

  /** The ε-arcs from every member of `F` to every member of `S`. */
  function Bridge(F: set<State>, S: set<State>): set<Transition>
  {
    set f, s | f in F && s in S :: Transition(f, Epsilon, s)
  }

  /** The renumbering offset: the largest known state, 0 when there is none. */
  ghost function Offset(A: Nfa): nat
  {
    Max(Endpoints(A.trans))
  }

  /** Both automata side by side, the other one renumbered past this one. */
  ghost function UnionNfa(A: Nfa, B: Nfa): Nfa
  {
    var C := Shift(B, Offset(A));
    Nfa(A.trans + C.trans, A.starts + C.starts, A.finals + C.finals)
  }

  /** The other automaton renumbered past this one, entered by ε-arcs from
      every final state of this one; only its final states stay final. */
  ghost function ConcatNfa(A: Nfa, B: Nfa): Nfa
  {
    var C := Shift(B, Offset(A));
    Nfa(A.trans + C.trans + Bridge(A.finals, C.starts), A.starts, C.finals)
  }

  /** ε-arcs from every final state back to every start state, and every
      start state made final. */
  function StarNfa(A: Nfa): Nfa
  {
    Nfa(A.trans + Bridge(A.finals, A.starts), A.starts, A.finals + A.starts)
  }

  /** Renumbering one more arc adds its renumbered copy. */
  lemma ShiftArcsAdd(T: set<Transition>, t: Transition, k: nat)
    ensures ShiftArcs(T + {t}, k) == ShiftArcs(T, k) + {ShiftArc(t, k)}
  {
  }

  /** One more source adds its ε-arc. */
  lemma BridgeAddSource(F: set<State>, f: State, s: State)
    ensures Bridge(F + {f}, {s}) == Bridge(F, {s}) + {Transition(f, Epsilon, s)}
  {
  }

  /** One more target adds its ε-arc. */
  lemma BridgeAddTarget(f: State, S: set<State>, s: State)
    ensures Bridge({f}, S + {s}) == Bridge({f}, S) + {Transition(f, Epsilon, s)}
  {
  }

  /** The ε-arcs into one more target. */
  lemma BridgeSplitTargets(F: set<State>, S: set<State>, s: State)
    ensures Bridge(F, S + {s}) == Bridge(F, S) + Bridge(F, {s})
  {
  }

  /** The ε-arcs out of one more source. */
  lemma BridgeSplitSources(F: set<State>, f: State, S: set<State>)
    ensures Bridge(F + {f}, S) == Bridge(F, S) + Bridge({f}, S)
  {
  }

  /** Renumbering one more state. */
  lemma ShiftSetAdd(S: set<State>, s: State, k: nat)
    ensures ShiftSet(S + {s}, k) == ShiftSet(S, k) + {s + k}
  {
  }

  /** Renumbering a prefix one member longer. */
  lemma ShiftPrefixStep(xs: seq<State>, i: nat, k: nat)
    requires i < |xs|
    ensures ShiftSet(Elements(xs[..i + 1]), k) == ShiftSet(Elements(xs[..i]), k) + {xs[i] + k}
  {
    ElementsStep(xs, i);
    ShiftSetAdd(Elements(xs[..i]), xs[i], k);
  }

  /** The renumbered start and final states of a well-formed automaton are
      endpoints of its renumbered arcs. */
  lemma ShiftWellFormed(B: Nfa, k: nat)
    requires WellFormed(B)
    ensures WellFormed(Shift(B, k))
  {
    var C := Shift(B, k);
    forall s | s in B.starts + B.finals
      ensures s + k in Endpoints(C.trans)
    {
      if s in Sources(B.trans) {
        var t :| t in B.trans && t.from == s;
        assert ShiftArc(t, k) in C.trans;
      } else {
        var t :| t in B.trans && t.to == s;
        assert ShiftArc(t, k) in C.trans;
      }
    }
  }

  /** More arcs know at least the same states. */
  lemma EndpointsMono(T: set<Transition>, U: set<Transition>)
    requires T <= U
    ensures Endpoints(T) <= Endpoints(U)
  {
    forall s | s in Endpoints(T)
      ensures s in Endpoints(U)
    {
      if s in Sources(T) {
        var t :| t in T && t.from == s;
        assert t in U;
      } else {
        var t :| t in T && t.to == s;
        assert t in U;
      }
    }
  }

  // ---------------------------------------------------------------------
  // Renumbering does not change the language.

  lemma PostShift(T: set<Transition>, S: set<State>, a: Symbol, k: nat)
    ensures Post(ShiftArcs(T, k), ShiftSet(S, k), a) == ShiftSet(Post(T, S, a), k)
  {
    forall y | y in Post(ShiftArcs(T, k), ShiftSet(S, k), a)
      ensures y in ShiftSet(Post(T, S, a), k)
    {
      var u :| u in ShiftArcs(T, k) && u.from in ShiftSet(S, k) && u.sym == a && u.to == y;
      var t :| t in T && u == ShiftArc(t, k);
      assert t.to in Post(T, S, a);
    }
    forall y | y in ShiftSet(Post(T, S, a), k)
      ensures y in Post(ShiftArcs(T, k), ShiftSet(S, k), a)
    {
      var x :| x in Post(T, S, a) && y == x + k;
      var t :| t in T && t.from in S && t.sym == a && t.to == x;
      assert ShiftArc(t, k) in ShiftArcs(T, k);
    }
  }

  /** The states of `D` at or above `k`, renumbered `k` lower. */
  function Unshift(D: set<State>, k: nat): set<State>
  {
    set x | x in D && x >= k :: x - k
  }

  /** The renumbered closure is closed under the renumbered arcs. */
  lemma ClosureShiftUp(T: set<Transition>, S: set<State>, k: nat)
    ensures Closure(ShiftArcs(T, k), ShiftSet(S, k)) <= ShiftSet(Closure(T, S), k)
  {
    var C := Closure(T, S);
    PostShift(T, C, Epsilon, k);
    assert ShiftSet(S, k) <= ShiftSet(C, k);
    ClosureLeast(ShiftArcs(T, k), ShiftSet(S, k), ShiftSet(C, k));
  }

  /** Renumbering a part of `Unshift(D, k)` lands back in `D`. */
  lemma ShiftUnshift(X: set<State>, D: set<State>, k: nat)
    requires X <= Unshift(D, k)
    ensures ShiftSet(X, k) <= D
  {
    forall y | y in ShiftSet(X, k)
      ensures y in D
    {
      var x :| x in X && y == x + k;
      var z :| z in D && z >= k && x == z - k;
    }
  }

  /** A set closed under the renumbered arcs is, renumbered back, closed
      under the original arcs. */
  lemma UnshiftClosed(T: set<Transition>, D: set<State>, k: nat)
    requires Closed(ShiftArcs(T, k), D)
    ensures Closed(T, Unshift(D, k))
  {
    var P := Unshift(D, k);
    forall y | y in Post(T, P, Epsilon)
      ensures y in P
    {
      var t :| t in T && t.from in P && t.sym == Epsilon && t.to == y;
      assert ShiftArc(t, k) in ShiftArcs(T, k) && t.from + k in D;
      assert y + k in Post(ShiftArcs(T, k), D, Epsilon);
    }
  }

  /** Renumbering the closure under the renumbered arcs back is closed under
      the original arcs. */
  lemma ClosureShiftDown(T: set<Transition>, S: set<State>, k: nat)
    ensures ShiftSet(Closure(T, S), k) <= Closure(ShiftArcs(T, k), ShiftSet(S, k))
  {
    var U := ShiftArcs(T, k);
    var D := Closure(U, ShiftSet(S, k));
    var P := Unshift(D, k);
    forall s | s in S
      ensures s in P
    {
      assert s + k in ShiftSet(S, k) && s + k in D;
    }
    UnshiftClosed(T, D, k);
    ClosureLeast(T, S, P);
    ShiftUnshift(Closure(T, S), D, k);
  }

  lemma ClosureShift(T: set<Transition>, S: set<State>, k: nat)
    ensures Closure(ShiftArcs(T, k), ShiftSet(S, k)) == ShiftSet(Closure(T, S), k)
  {
    ClosureShiftUp(T, S, k);
    ClosureShiftDown(T, S, k);
  }

  lemma {:induction false} RunShift(T: set<Transition>, S: set<State>, w: seq<Symbol>, k: nat)
    ensures Run(ShiftArcs(T, k), ShiftSet(S, k), w) == ShiftSet(Run(T, S, w), k)
    decreases |w|
  {
    if w != [] {
      if w[0] == Epsilon {
        RunShift(T, S, w[1..], k);
      } else {
        PostShift(T, S, w[0], k);
        ClosureShift(T, Post(T, S, w[0]), k);
        RunShift(T, Closure(T, Post(T, S, w[0])), w[1..], k);
      }
    }
  }

  lemma MeetShift(X: set<State>, Y: set<State>, k: nat)
    ensures ShiftSet(X, k) * ShiftSet(Y, k) != {} <==> X * Y != {}
  {
    if X * Y != {} {
      var x :| x in X * Y;
      assert x + k in ShiftSet(X, k) * ShiftSet(Y, k);
    }
    if ShiftSet(X, k) * ShiftSet(Y, k) != {} {
      var y :| y in ShiftSet(X, k) * ShiftSet(Y, k);
      var x :| x in X && y == x + k;
      var x' :| x' in Y && y == x' + k;
      assert x in X * Y;
    }
  }

  /** Renumbering the states keeps the language. */
  lemma AcceptsShift(A: Nfa, k: nat, w: seq<Symbol>)
    ensures Accepts(Shift(A, k), w) <==> Accepts(A, w)
  {
    ClosureShift(A.trans, A.starts, k);
    RunShift(A.trans, Closure(A.trans, A.starts), w, k);
    MeetShift(Reach(A, w), A.finals, k);
  }

  // ---------------------------------------------------------------------
  // Arcs that cannot be entered from a region do not change runs inside it.

  /** No arc of `T2` leaves a state of `R`. */
  ghost predicate Sealed(T2: set<Transition>, R: set<State>)
  {
    forall t :: t in T2 ==> t.from !in R
  }

  lemma ClosureLocal(T1: set<Transition>, T2: set<Transition>, S: set<State>, R: set<State>)
    requires Targets(T1) + S <= R && Sealed(T2, R)
    ensures Closure(T1 + T2, S) == Closure(T1, S) <= R
  {
    var C := Closure(T1, S);
    assert Post(T2, C, Epsilon) == {};
    PostUnion(T1, C, {}, Epsilon);
    assert Post(T1 + T2, C, Epsilon) == Post(T1, C, Epsilon) + Post(T2, C, Epsilon);
    ClosureLeast(T1 + T2, S, C);
    ClosureMonoArcs(T1, T1 + T2, S);
  }

  lemma {:induction false} RunLocal(T1: set<Transition>, T2: set<Transition>, S: set<State>, R: set<State>, w: seq<Symbol>)
    requires Targets(T1) + S <= R && Sealed(T2, R)
    ensures Run(T1 + T2, S, w) == Run(T1, S, w) <= R
    decreases |w|
  {
    if w == [] {
    } else if w[0] == Epsilon {
      RunLocal(T1, T2, S, R, w[1..]);
    } else {
      var P := Post(T1, S, w[0]);
      assert Post(T1 + T2, S, w[0]) == P;
      ClosureLocal(T1, T2, P, R);
      RunLocal(T1, T2, Closure(T1, P), R, w[1..]);
    }
  }

  /** Reading a word from the start states of one side of two separate
      automata stays on that side. */
  lemma ReachLocal(T1: set<Transition>, T2: set<Transition>, S: set<State>, R: set<State>, w: seq<Symbol>)
    requires Targets(T1) + S <= R && Sealed(T2, R)
    ensures Run(T1 + T2, Closure(T1 + T2, S), w) == Run(T1, Closure(T1, S), w) <= R
  {
    ClosureLocal(T1, T2, S, R);
    RunLocal(T1, T2, Closure(T1, S), R, w);
  }

  // ---------------------------------------------------------------------
  // Union.

  /** The states of a well-formed automaton are at most its offset. */
  lemma BelowOffset(A: Nfa)
    requires WellFormed(A)
    ensures forall s :: s in Endpoints(A.trans) + A.starts + A.finals ==> s <= Offset(A)
  {
  }

  /** The renumbered states of an automaton without state 0 lie above the
      offset. */
  lemma AboveOffset(B: Nfa, k: nat)
    requires WellFormed(B) && 0 !in Endpoints(B.trans)
    ensures forall s :: s in Endpoints(Shift(B, k).trans) + Shift(B, k).starts + Shift(B, k).finals ==> s > k
  {
    var C := Shift(B, k);
    forall s | s in Endpoints(C.trans) + C.starts + C.finals
      ensures s > k
    {
      if s in Sources(C.trans) {
        var u :| u in C.trans && u.from == s;
        var t :| t in B.trans && u == ShiftArc(t, k);
        assert t.from in Sources(B.trans);
      } else if s in Targets(C.trans) {
        var u :| u in C.trans && u.to == s;
        var t :| t in B.trans && u == ShiftArc(t, k);
        assert t.to in Targets(B.trans);
      } else if s in C.starts {
        var x :| x in B.starts && s == x + k;
      } else {
        var x :| x in B.finals && s == x + k;
      }
    }
  }

  /** With the other automaton free of state 0, the union accepts exactly
      the words either operand accepts. */
  lemma AcceptsUnion(A: Nfa, B: Nfa, w: seq<Symbol>)
    requires WellFormed(A) && WellFormed(B) && 0 !in Endpoints(B.trans)
    ensures Accepts(UnionNfa(A, B), w) <==> Accepts(A, w) || Accepts(B, w)
  {
    var k := Offset(A);
    var C := Shift(B, k);
    var U := UnionNfa(A, B);
    BelowOffset(A);
    AboveOffset(B, k);
    var RA := Endpoints(A.trans) + A.starts + A.finals;
    var RC := Endpoints(C.trans) + C.starts + C.finals;
    assert RA !! RC;
    assert Sealed(C.trans, RA) && Sealed(A.trans, RC);
    ClosureUnion(U.trans, A.starts, C.starts);
    RunUnion(U.trans, Closure(U.trans, A.starts), Closure(U.trans, C.starts), w);
    ReachLocal(A.trans, C.trans, A.starts, RA, w);
    assert C.trans + A.trans == U.trans;
    ReachLocal(C.trans, A.trans, C.starts, RC, w);
    AcceptsShift(B, k, w);
  }

  // ---------------------------------------------------------------------
  // Concatenation.

  /** A set reached from a closed set is closed, so an ε-arc out of it leads
      back into it. */
  lemma BridgeInto(T: set<Transition>, X: set<State>, f: State, S: set<State>)
    requires Closed(T, X) && f in X && Bridge({f}, S) <= T
    ensures Closure(T, S) <= X
  {
    forall s | s in S
      ensures s in X
    {
      assert Transition(f, Epsilon, s) in Bridge({f}, S);
      assert s in Post(T, X, Epsilon);
    }
    ClosureLeast(T, S, X);
  }

  /** A word of this automaton followed by a word of the other one is a
      word of the concatenation. */
  lemma AcceptsConcat(A: Nfa, B: Nfa, u: seq<Symbol>, v: seq<Symbol>)
    requires Accepts(A, u) && Accepts(B, v)
    ensures Accepts(ConcatNfa(A, B), u + v)
  {
    var k := Offset(A);
    var C := Shift(B, k);
    var N := ConcatNfa(A, B);
    var X := Reach(N, u);
    // the prefix: everything A reaches on u, N reaches too
    ClosureMonoArcs(A.trans, N.trans, A.starts);
    RunMonoArcs(A.trans, N.trans, Closure(A.trans, A.starts), Closure(N.trans, N.starts), u);
    var f :| f in Reach(A, u) * A.finals;
    // the bridge out of f puts every renumbered start in X
    RunClosed(N.trans, Closure(N.trans, N.starts), u);
    assert Bridge({f}, C.starts) <= N.trans;
    BridgeInto(N.trans, X, f, C.starts);
    // the suffix: everything C reaches on v, N reaches from X
    ClosureMonoArcs(C.trans, N.trans, C.starts);
    RunMonoArcs(C.trans, N.trans, Closure(C.trans, C.starts), X, v);
    RunAppend(N.trans, Closure(N.trans, N.starts), u, v);
    AcceptsShift(B, k, v);
  }

  /** The arcs of the concatenation of `A` with an already renumbered `C`. */
  ghost function JoinArcs(A: Nfa, C: Nfa): set<Transition>
  {
    A.trans + C.trans + Bridge(A.finals, C.starts)
  }

  /** `A` and `C` live on the disjoint state regions `RA` and `RC`. */
  ghost predicate Apart(A: Nfa, C: Nfa, RA: set<State>, RC: set<State>)
  {
    && RA !! RC
    && Endpoints(A.trans) + A.starts + A.finals <= RA
    && Endpoints(C.trans) + C.starts + C.finals <= RC
  }

  /** Every arc but those of `C` leaves the region of `A`. */
  lemma JoinSealed(A: Nfa, C: Nfa, RA: set<State>, RC: set<State>)
    requires Apart(A, C, RA, RC)
    ensures Sealed(A.trans + Bridge(A.finals, C.starts), RC)
    ensures JoinArcs(A, C) == C.trans + (A.trans + Bridge(A.finals, C.starts))
  {
    forall t | t in A.trans + Bridge(A.finals, C.starts)
      ensures t.from in RA
    {
      if t in A.trans {
        assert t.from in Sources(A.trans);
      } else {
        var f, s :| f in A.finals && s in C.starts && t == Transition(f, Epsilon, s);
      }
    }
  }

  /** From inside the region of `A`, the ε-closure of the concatenation is
      the closure within `A`, joined by the closure of the starts of `C`
      exactly when a final state of `A` is among it. */
  lemma JoinClosure(A: Nfa, C: Nfa, RA: set<State>, RC: set<State>, S: set<State>)
    requires Apart(A, C, RA, RC) && S <= RA
    ensures Closure(A.trans, S) <= RA
    ensures Closure(JoinArcs(A, C), S) == Closure(A.trans, S) +
              if Closure(A.trans, S) * A.finals != {} then Closure(C.trans, C.starts) else {}
  {
    var T := JoinArcs(A, C);
    var CA := Closure(A.trans, S);
    var E := if CA * A.finals != {} then Closure(C.trans, C.starts) else {};
    var K := CA + E;
    assert CA <= RA && E <= RC;
    forall y | y in Post(T, K, Epsilon)
      ensures y in K
    {
      var t :| t in T && t.from in K && t.sym == Epsilon && t.to == y;
      if t in A.trans {
        assert t.from in Sources(A.trans);
        assert y in Post(A.trans, CA, Epsilon);
      } else if t in C.trans {
        assert t.from in Sources(C.trans);
        assert y in Post(C.trans, E, Epsilon);
      } else {
        var f, s :| f in A.finals && s in C.starts && t == Transition(f, Epsilon, s);
        assert f in CA * A.finals;
      }
    }
    ClosureLeast(T, S, K);
    ClosureMonoArcs(A.trans, T, S);
    if CA * A.finals != {} {
      var f :| f in CA * A.finals;
      assert Bridge({f}, C.starts) <= T;
      BridgeInto(T, Closure(T, S), f, C.starts);
      ClosureMonoArcs(C.trans, T, C.starts);
    }
  }

  /** A real symbol read from states of both regions moves each part by its
      own arcs; the ε-arcs of the bridge take no part. */
  lemma JoinPost(A: Nfa, C: Nfa, RA: set<State>, RC: set<State>, X: set<State>, Y: set<State>, a: Symbol)
    requires Apart(A, C, RA, RC) && X <= RA && Y <= RC && a != Epsilon
    ensures Post(JoinArcs(A, C), X + Y, a) == Post(A.trans, X, a) + Post(C.trans, Y, a)
  {
    var T := JoinArcs(A, C);
    forall t | t in Bridge(A.finals, C.starts)
      ensures t.sym == Epsilon
    {
    }
    forall y | y in Post(T, X + Y, a)
      ensures y in Post(A.trans, X, a) + Post(C.trans, Y, a)
    {
      var t :| t in T && t.from in X + Y && t.sym == a && t.to == y;
      if t in A.trans {
        assert t.from in Sources(A.trans);
      } else if t in C.trans {
        assert t.from in Sources(C.trans);
      }
    }
  }

  /** The arcs of `C` alone read the part of a run that is in its region. */
  lemma JoinRunSplit(A: Nfa, C: Nfa, RA: set<State>, RC: set<State>, X: set<State>, Y: set<State>, a: Symbol, w: seq<Symbol>)
    requires Apart(A, C, RA, RC) && X <= RA && Y <= RC && a != Epsilon
    ensures Run(JoinArcs(A, C), Closure(JoinArcs(A, C), Post(JoinArcs(A, C), X + Y, a)), w)
            == Run(JoinArcs(A, C), Closure(JoinArcs(A, C), Post(A.trans, X, a)), w)
               + Run(C.trans, Closure(C.trans, Post(C.trans, Y, a)), w)
  {
    var T := JoinArcs(A, C);
    var PA := Post(A.trans, X, a);
    var PC := Post(C.trans, Y, a);
    JoinPost(A, C, RA, RC, X, Y, a);
    ClosureUnion(T, PA, PC);
    RunUnion(T, Closure(T, PA), Closure(T, PC), w);
    JoinSealed(A, C, RA, RC);
    ReachLocal(C.trans, A.trans + Bridge(A.finals, C.starts), PC, RC, w);
  }

  /** `w` splits after `i` symbols into a word `A` reads from `S` into a
      final state and a word `C` accepts. */
  ghost predicate SplitsAt(A: Nfa, C: Nfa, S: set<State>, w: seq<Symbol>, i: int)
  {
    && 0 <= i <= |w|
    && Run(A.trans, Closure(A.trans, S), w[..i]) * A.finals != {}
    && Run(C.trans, Closure(C.trans, C.starts), w[i..]) * C.finals != {}
  }

  /** A split of the rest of the word after an ε entry. */
  lemma SplitsEpsilon(A: Nfa, C: Nfa, S: set<State>, w: seq<Symbol>, i: int)
    requires w != [] && w[0] == Epsilon && SplitsAt(A, C, S, w[1..], i)
    ensures SplitsAt(A, C, S, w, i + 1)
  {
    RunHead(A.trans, Closure(A.trans, S), w, i);
    assert w[i + 1..] == w[1..][i..];
  }

  /** A split of the rest of the word after a real symbol, read by `A`. */
  lemma SplitsSymbol(A: Nfa, C: Nfa, S: set<State>, w: seq<Symbol>, i: int)
    requires w != [] && w[0] != Epsilon
    requires SplitsAt(A, C, Post(A.trans, Closure(A.trans, S), w[0]), w[1..], i)
    ensures SplitsAt(A, C, S, w, i + 1)
  {
    RunHead(A.trans, Closure(A.trans, S), w, i);
    assert w[i + 1..] == w[1..][i..];
  }

  /** A run of the concatenation from the region of `A` that ends in a final
      state of `C` splits the word: a prefix `A` reads into one of its final
      states, and a suffix `C` reads from its starts into one of its own. */
  lemma {:induction false} JoinRun(A: Nfa, C: Nfa, RA: set<State>, RC: set<State>, S: set<State>, w: seq<Symbol>)
    requires Apart(A, C, RA, RC) && S <= RA
    requires Run(JoinArcs(A, C), Closure(JoinArcs(A, C), S), w) * C.finals != {}
    ensures exists i :: SplitsAt(A, C, S, w, i)
    decreases |w|
  {
    var T := JoinArcs(A, C);
    var CA := Closure(A.trans, S);
    var E := if CA * A.finals != {} then Closure(C.trans, C.starts) else {};
    JoinClosure(A, C, RA, RC, S);
    assert E <= RC;
    if w == [] {
      assert E * C.finals != {};
      assert w[..0] == [] && w[0..] == w;
      assert SplitsAt(A, C, S, w, 0);
    } else if w[0] == Epsilon {
      JoinRun(A, C, RA, RC, S, w[1..]);
      var i :| SplitsAt(A, C, S, w[1..], i);
      SplitsEpsilon(A, C, S, w, i);
    } else {
      var PA := Post(A.trans, CA, w[0]);
      JoinRunSplit(A, C, RA, RC, CA, E, w[0], w[1..]);
      if Run(T, Closure(T, PA), w[1..]) * C.finals != {} {
        assert PA <= Targets(A.trans);
        JoinRun(A, C, RA, RC, PA, w[1..]);
        var i :| SplitsAt(A, C, PA, w[1..], i);
        SplitsSymbol(A, C, S, w, i);
      } else {
        StepFromNonEmpty(C.trans, E, w[0], w[1..], C.finals);
        assert w[..0] == [] && w[0..] == w;
        assert SplitsAt(A, C, S, w, 0);
      }
    }
  }

  /** With the other automaton free of state 0, the concatenation accepts
      exactly the words that split into a word of this automaton followed
      by a word of the other one. */
  lemma ConcatLanguage(A: Nfa, B: Nfa, w: seq<Symbol>)
    requires WellFormed(A) && WellFormed(B) && 0 !in Endpoints(B.trans)
    ensures Accepts(ConcatNfa(A, B), w) <==>
              exists i :: 0 <= i <= |w| && Accepts(A, w[..i]) && Accepts(B, w[i..])
  {
    if Accepts(ConcatNfa(A, B), w) {
      var k := Offset(A);
      var C := Shift(B, k);
      BelowOffset(A);
      AboveOffset(B, k);
      var RA := Endpoints(A.trans) + A.starts + A.finals;
      var RC := Endpoints(C.trans) + C.starts + C.finals;
      assert Apart(A, C, RA, RC);
      assert ConcatNfa(A, B).trans == JoinArcs(A, C);
      JoinRun(A, C, RA, RC, A.starts, w);
      var i :| SplitsAt(A, C, A.starts, w, i);
      AcceptsShift(B, k, w[i..]);
    }
    if exists i :: 0 <= i <= |w| && Accepts(A, w[..i]) && Accepts(B, w[i..]) {
      var i :| 0 <= i <= |w| && Accepts(A, w[..i]) && Accepts(B, w[i..]);
      AcceptsConcat(A, B, w[..i], w[i..]);
      assert w[..i] + w[i..] == w;
    }
  }

  // ---------------------------------------------------------------------
  // Star.

  function Flatten(ws: seq<seq<Symbol>>): seq<Symbol>
  {
    if ws == [] then [] else Flatten(ws[..|ws| - 1]) + ws[|ws| - 1]
  }

  /** After any number of words of `A`, the star automaton is back in (a
      superset of) the closure of the start states, and after at least one
      it is in a final state of `A`. */
  lemma {:induction false} StarLoop(A: Nfa, ws: seq<seq<Symbol>>)
    requires forall i :: 0 <= i < |ws| ==> Accepts(A, ws[i])
    ensures Closure(StarNfa(A).trans, A.starts) <= Reach(StarNfa(A), Flatten(ws))
    ensures ws != [] ==> Reach(StarNfa(A), Flatten(ws)) * A.finals != {}
    decreases |ws|
  {
    var N := StarNfa(A);
    var S0 := Closure(N.trans, A.starts);
    if ws != [] {
      var init := ws[..|ws| - 1];
      var last := ws[|ws| - 1];
      StarLoop(A, init);
      var X := Reach(N, Flatten(init));
      RunAppend(N.trans, S0, Flatten(init), last);
      ClosureMonoArcs(A.trans, N.trans, A.starts);
      RunMonoArcs(A.trans, N.trans, Closure(A.trans, A.starts), X, last);
      var f :| f in Reach(A, last) * A.finals;
      RunClosed(N.trans, S0, Flatten(ws));
      assert Bridge({f}, A.starts) <= N.trans;
      BridgeInto(N.trans, Reach(N, Flatten(ws)), f, A.starts);
    }
  }

  /** Every concatenation of words of `A` is accepted by the star, the empty
      concatenation included whenever there is a start state. */
  lemma AcceptsStar(A: Nfa, ws: seq<seq<Symbol>>)
    requires forall i :: 0 <= i < |ws| ==> Accepts(A, ws[i])
    requires A.starts != {}
    ensures Accepts(StarNfa(A), Flatten(ws))
  {
    StarLoop(A, ws);
    var s :| s in A.starts;
    assert s in Closure(StarNfa(A).trans, A.starts);
  }

  /** The star keeps every word of `A`. */
  lemma StarKeeps(A: Nfa, w: seq<Symbol>)
    requires Accepts(A, w)
    ensures Accepts(StarNfa(A), w)
  {
    AcceptsMono(A, StarNfa(A), w);
  }
}
