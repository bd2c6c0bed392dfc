/** The sparse nondeterministic transition function: a nested map
    source -> symbol -> set of targets, kept compact (no empty inner map and
    no empty target set is ever stored). */
module Transitions {
  import opened Base
  import opened Collections

  type Relation = map<State, map<Symbol, set<State>>>

  /** No source maps to an empty symbol map, and no (source, symbol) pair
      maps to an empty target set. */
  ghost predicate Compact(t: Relation)
  {
    forall from :: from in t ==>
      t[from] != map[] && forall symbol :: symbol in t[from] ==> t[from][symbol] != {}
  }

  /** True iff the nested map stores the arc `x`. */
  ghost predicate Stores(t: Relation, x: Transition)
  {
    x.from in t && x.sym in t[x.from] && x.to in t[x.from][x.sym]
  }

  /** The arcs a nested map stores, as a set of triples. */
  ghost function TriplesOf(t: Relation): (r: set<Transition>)
    ensures forall x :: x in r <==> Stores(t, x)
  {
    set from, symbol, to | from in t && symbol in t[from] && to in t[from][symbol]
      :: Transition(from, symbol, to)
  }

  /** The arcs of `T` whose source lies in `K`. */
  ghost function ArcsFrom(T: set<Transition>, K: set<State>): set<Transition>
  {
    set x | x in T && x.from in K
  }

  /** The arcs of `T` leaving `from` with a label in `B`. */
  ghost function ArcsOn(T: set<Transition>, from: State, B: set<Symbol>): set<Transition>
  {
    set x | x in T && x.from == from && x.sym in B
  }

  /** The arcs `from -symbol-> to` for the targets `to` in `D`. */
  ghost function ArcsTo(from: State, symbol: Symbol, D: set<State>): set<Transition>
  {
    set to | to in D :: Transition(from, symbol, to)
  }

  /** One arc per target: `ArcsTo` has as many arcs as `D` has targets. */
  lemma {:induction false} ArcsToCard(from: State, symbol: Symbol, D: set<State>)
    ensures |ArcsTo(from, symbol, D)| == |D|
    decreases D
  {
    if D != {} {
      var to :| to in D;
      ArcsToCard(from, symbol, D - {to});
      assert ArcsTo(from, symbol, D) == ArcsTo(from, symbol, D - {to}) + {Transition(from, symbol, to)};
    }
  }

  /** Splitting the labels of one source into the ones already visited and
      one more label splits its arcs into two disjoint parts. */
  lemma ArcsOnSplit(T: set<Transition>, from: State, B: set<Symbol>, b: Symbol)
    requires b !in B
    ensures ArcsOn(T, from, B + {b}) == ArcsOn(T, from, B) + ArcsOn(T, from, {b})
    ensures ArcsOn(T, from, B) !! ArcsOn(T, from, {b})
    ensures |ArcsOn(T, from, B + {b})| == |ArcsOn(T, from, B)| + |ArcsOn(T, from, {b})|
  {
    assert ArcsOn(T, from, B) !! ArcsOn(T, from, {b});
  }

  /** Splitting the visited sources off one more source splits the arcs into
      two disjoint parts. */
  lemma ArcsFromSplit(T: set<Transition>, K: set<State>, k: State)
    requires k !in K
    ensures ArcsFrom(T, K + {k}) == ArcsFrom(T, K) + ArcsFrom(T, {k})
    ensures |ArcsFrom(T, K + {k})| == |ArcsFrom(T, K)| + |ArcsFrom(T, {k})|
  {
    assert ArcsFrom(T, K) !! ArcsFrom(T, {k});
  }

  /** Every arc of a source is stored under one of that source's labels. */
  lemma ArcsCovered(t: Relation, from: State)
    requires from in t
    ensures ArcsOn(TriplesOf(t), from, t[from].Keys) == ArcsFrom(TriplesOf(t), {from})
  {
  }

  /** Every arc is stored under one of the map's sources. */
  lemma AllSources(t: Relation)
    ensures ArcsFrom(TriplesOf(t), t.Keys) == TriplesOf(t)
  {
  }

  /** Counting step over the labels of one source. */
  lemma EntryCount(t: Relation, from: State, B: set<Symbol>, symbol: Symbol)
    requires from in t && symbol in t[from] && symbol !in B
    ensures |ArcsOn(TriplesOf(t), from, B + {symbol})| == |ArcsOn(TriplesOf(t), from, B)| + |t[from][symbol]|
  {
    EntryArcs(t, from, symbol);
    ArcsToCard(from, symbol, t[from][symbol]);
    ArcsOnSplit(TriplesOf(t), from, B, symbol);
  }

  /** Counting step over the sources. */
  lemma SourceCount(t: Relation, K: set<State>, from: State)
    requires from in t && from !in K
    ensures |ArcsFrom(TriplesOf(t), K + {from})| == |ArcsFrom(TriplesOf(t), K)| + |ArcsOn(TriplesOf(t), from, t[from].Keys)|
  {
    ArcsCovered(t, from);
    ArcsFromSplit(TriplesOf(t), K, from);
  }

  /** The arcs stored under one (source, symbol) entry are exactly the arcs to
      the members of that entry's target set. */
  lemma EntryArcs(t: Relation, from: State, symbol: Symbol)
    requires from in t && symbol in t[from]
    ensures ArcsOn(TriplesOf(t), from, {symbol}) == ArcsTo(from, symbol, t[from][symbol])
  {
  }

  /** A relation whose arcs leave no (source, symbol) pair with two targets is
      exactly one whose target sets hold at most one state. */
  lemma FunctionalEntries(t: Relation)
    ensures Functional(TriplesOf(t)) <==>
      forall from, symbol :: from in t && symbol in t[from] ==> |t[from][symbol]| <= 1
  {
    var T := TriplesOf(t);
    if Functional(T) {
      forall from, symbol | from in t && symbol in t[from]
        ensures |t[from][symbol]| <= 1
      {
        var targets := t[from][symbol];
        if targets != {} {
          var a :| a in targets;
          forall b | b in targets
            ensures b == a
          {
            assert Stores(t, Transition(from, symbol, a)) && Stores(t, Transition(from, symbol, b));
          }
          assert targets == {a};
        }
      }
    } else {
      var x, y :| x in T && y in T && x.from == y.from && x.sym == y.sym && x.to != y.to;
      assert x.to in t[x.from][x.sym] && y.to in t[x.from][x.sym];
      if |t[x.from][x.sym]| <= 1 {
        AtMostOne(t[x.from][x.sym], x.to, y.to);
      }
    }
  }

  /** Insertion into one entry: `after` stores the arcs of `before` and
      `arc`, and stays compact. */
  lemma InsertedArc(before: Relation, arc: Transition, bySymbol: map<Symbol, set<State>>, targets: set<State>)
    requires Compact(before)
    requires bySymbol == if arc.from in before then before[arc.from] else map[]
    requires targets == if arc.sym in bySymbol then bySymbol[arc.sym] else {}
    ensures var after := before[arc.from := bySymbol[arc.sym := targets + {arc.to}]];
      Compact(after) && TriplesOf(after) == TriplesOf(before) + {arc}
  {
    var after := before[arc.from := bySymbol[arc.sym := targets + {arc.to}]];
    forall x
      ensures Stores(after, x) <==> Stores(before, x) || x == arc
    {
    }
  }

  /** Removal from one entry, in each of its three pruning cases: `after`
      stores exactly the arcs of `before` other than `arc`, and stays
      compact. */
  lemma RemovedArc(before: Relation, after: Relation, arc: Transition, bySymbol: map<Symbol, set<State>>, targets: set<State>)
    requires Compact(before) && Stores(before, arc)
    requires bySymbol == before[arc.from] && targets == bySymbol[arc.sym]
    requires targets - {arc.to} != {} ==> after == before[arc.from := bySymbol[arc.sym := targets - {arc.to}]]
    requires targets - {arc.to} == {} && bySymbol - {arc.sym} != map[] ==> after == before[arc.from := bySymbol - {arc.sym}]
    requires targets - {arc.to} == {} && bySymbol - {arc.sym} == map[] ==> after == before - {arc.from}
    ensures Compact(after) && TriplesOf(after) == TriplesOf(before) - {arc}
  {
    if targets - {arc.to} != {} {
      RemovedTarget(before, arc, bySymbol, targets);
    } else if bySymbol - {arc.sym} != map[] {
      RemovedSymbol(before, arc, bySymbol);
    } else {
      RemovedSource(before, arc, bySymbol);
    }
  }

  /** Other targets remain under the arc's source and symbol: only the
      target is dropped. */
  lemma RemovedTarget(before: Relation, arc: Transition, bySymbol: map<Symbol, set<State>>, targets: set<State>)
    requires Compact(before) && Stores(before, arc)
    requires bySymbol == before[arc.from] && targets == bySymbol[arc.sym] && targets - {arc.to} != {}
    ensures var after := before[arc.from := bySymbol[arc.sym := targets - {arc.to}]];
      Compact(after) && TriplesOf(after) == TriplesOf(before) - {arc}
  {
    var after := before[arc.from := bySymbol[arc.sym := targets - {arc.to}]];
    forall x
      ensures Stores(after, x) <==> Stores(before, x) && x != arc
    {
    }
  }

  /** The arc was the last under its symbol, and other symbols remain under
      its source: the symbol is dropped. */
  lemma RemovedSymbol(before: Relation, arc: Transition, bySymbol: map<Symbol, set<State>>)
    requires Compact(before) && Stores(before, arc) && bySymbol == before[arc.from]
    requires bySymbol[arc.sym] - {arc.to} == {} && bySymbol - {arc.sym} != map[]
    ensures var after := before[arc.from := bySymbol - {arc.sym}];
      Compact(after) && TriplesOf(after) == TriplesOf(before) - {arc}
  {
    var after := before[arc.from := bySymbol - {arc.sym}];
    assert bySymbol[arc.sym] == {arc.to};
    assert (bySymbol - {arc.sym}).Keys == bySymbol.Keys - {arc.sym};
    forall x
      ensures Stores(after, x) <==> Stores(before, x) && x != arc
    {
    }
  }

  /** The arc was the last of its source: the source is dropped. */
  lemma RemovedSource(before: Relation, arc: Transition, bySymbol: map<Symbol, set<State>>)
    requires Compact(before) && Stores(before, arc) && bySymbol == before[arc.from]
    requires bySymbol[arc.sym] - {arc.to} == {} && bySymbol - {arc.sym} == map[]
    ensures var after := before - {arc.from};
      Compact(after) && TriplesOf(after) == TriplesOf(before) - {arc}
  {
    var after := before - {arc.from};
    assert bySymbol[arc.sym] == {arc.to};
    assert (bySymbol - {arc.sym}).Keys == bySymbol.Keys - {arc.sym};
    assert bySymbol.Keys - {arc.sym} == {} && arc.sym in bySymbol.Keys;
    assert bySymbol.Keys == {arc.sym};
    forall x
      ensures Stores(after, x) <==> Stores(before, x) && x != arc
    {
      if x.from == arc.from && Stores(before, x) {
        assert x.sym == arc.sym && x.to == arc.to;
      }
    }
  }

  /** The inner loop of the count: the target-set sizes of one source. */
  method CountSource(t: Relation, from: State) returns (n: nat)
    requires from in t
    ensures n == |ArcsOn(TriplesOf(t), from, t[from].Keys)|
  {
    n := 0;
    var symbols := t[from].Keys;
    ghost var doneSymbols: set<Symbol> := {};
    while symbols != {}
      invariant doneSymbols + symbols == t[from].Keys && doneSymbols !! symbols
      invariant n == |ArcsOn(TriplesOf(t), from, doneSymbols)|
      decreases |symbols|
    {
      var symbol :| symbol in symbols;
      EntryCount(t, from, doneSymbols, symbol);
      n := n + |t[from][symbol]|;
      symbols := symbols - {symbol};
      doneSymbols := doneSymbols + {symbol};
    }
    assert doneSymbols == t[from].Keys;
  }

  /** The two inner loops of the traversal: every arc of one source, once. */
  method VisitSource(t: Relation, from: State) returns (arcs: seq<Transition>)
    requires from in t
    ensures Distinct(arcs) && Elements(arcs) == ArcsFrom(TriplesOf(t), {from})
  {
    arcs := [];
    var symbols := t[from].Keys;
    ghost var doneSymbols: set<Symbol> := {};
    while symbols != {}
      invariant doneSymbols + symbols == t[from].Keys && doneSymbols !! symbols
      invariant Distinct(arcs) && Elements(arcs) == ArcsOn(TriplesOf(t), from, doneSymbols)
      decreases |symbols|
    {
      var symbol :| symbol in symbols;
      arcs := VisitSymbol(t, from, arcs, doneSymbols, symbol);
      symbols := symbols - {symbol};
      doneSymbols := doneSymbols + {symbol};
    }
    assert doneSymbols == t[from].Keys;
    ArcsCovered(t, from);
  }

  /** One pass of the middle loop: appends the arcs of one more symbol. */
  method VisitSymbol(t: Relation, from: State, arcs: seq<Transition>, ghost done: set<Symbol>, symbol: Symbol)
    returns (arcs': seq<Transition>)
    requires from in t && symbol in t[from] && symbol !in done
    requires Distinct(arcs) && Elements(arcs) == ArcsOn(TriplesOf(t), from, done)
    ensures Distinct(arcs') && Elements(arcs') == ArcsOn(TriplesOf(t), from, done + {symbol})
  {
    var part := VisitEntry(from, symbol, t[from][symbol]);
    EntryArcs(t, from, symbol);
    ArcsOnSplit(TriplesOf(t), from, done, symbol);
    DistinctAppend(arcs, part);
    arcs' := arcs + part;
  }

  /** The innermost loop of the traversal: one arc per target. */
  method VisitEntry(from: State, symbol: Symbol, targets: set<State>) returns (arcs: seq<Transition>)
    ensures Distinct(arcs) && Elements(arcs) == ArcsTo(from, symbol, targets)
  {
    arcs := [];
    var rest := targets;
    ghost var reached: set<State> := {};
    while rest != {}
      invariant reached + rest == targets && reached !! rest
      invariant Distinct(arcs) && Elements(arcs) == ArcsTo(from, symbol, reached)
      decreases |rest|
    {
      var to :| to in rest;
      var x := Transition(from, symbol, to);
      assert x !in Elements(arcs);
      DistinctAppend(arcs, [x]);
      arcs := arcs + [x];
      rest := rest - {to};
      reached := reached + {to};
    }
    assert reached == targets;
  }

  /** The outer loop of the traversal: every arc of every source, once. */
  method VisitAll(t: Relation) returns (arcs: seq<Transition>)
    ensures Distinct(arcs) && Elements(arcs) == TriplesOf(t)
  {
    arcs := [];
    var froms := t.Keys;
    ghost var done: set<State> := {};
    while froms != {}
      invariant done + froms == t.Keys && done !! froms
      invariant Distinct(arcs) && Elements(arcs) == ArcsFrom(TriplesOf(t), done)
      decreases |froms|
    {
      var from :| from in froms;
      var part := VisitSource(t, from);
      assert Distinct(arcs + part) && Elements(arcs + part) == ArcsFrom(TriplesOf(t), done + {from}) by {
        ArcsFromSplit(TriplesOf(t), done, from);
        DistinctAppend(arcs, part);
      }
      arcs := arcs + part;
      froms := froms - {from};
      done := done + {from};
    }
    assert done == t.Keys;
    AllSources(t);
  }

  /** The outer loop of the count: the arc counts of every source. */
  method CountAll(t: Relation) returns (n: nat)
    ensures n == |TriplesOf(t)|
  {
    n := 0;
    var froms := t.Keys;
    ghost var done: set<State> := {};
    while froms != {}
      invariant done + froms == t.Keys && done !! froms
      invariant n == |ArcsFrom(TriplesOf(t), done)|
      decreases |froms|
    {
      var from :| from in froms;
      var m := CountSource(t, from);
      assert n + m == |ArcsFrom(TriplesOf(t), done + {from})| by {
        SourceCount(t, done, from);
      }
      n := n + m;
      froms := froms - {from};
      done := done + {from};
    }
    assert done == t.Keys;
    AllSources(t);
  }

  class NondeterministicTransitions {
    var transitions: Relation

    ghost predicate Valid()
      reads this
    {
      Compact(transitions)
    }

    /** The abstract value: the set of stored arcs. */
    ghost function Triples(): set<Transition>
      reads this
    {
      TriplesOf(transitions)
    }

    constructor ()
      ensures Valid() && Triples() == {}
    {
      transitions := map[];
    }

    /** Inserts `from -symbol-> to`; the result says whether it was absent. */
    method AddTransition(from: State, symbol: Symbol, to: State) returns (added: bool)
      requires Valid()
      modifies this
      ensures Valid()
      ensures added <==> Transition(from, symbol, to) !in old(Triples())
      ensures Triples() == old(Triples()) + {Transition(from, symbol, to)}
      ensures |Triples()| == |old(Triples())| + if added then 1 else 0
    {
      var bySymbol: map<Symbol, set<State>> := if from in transitions then transitions[from] else map[];
      var targets: set<State> := if symbol in bySymbol then bySymbol[symbol] else {};
      added := to !in targets;
      InsertedArc(transitions, Transition(from, symbol, to), bySymbol, targets);
      transitions := transitions[from := bySymbol[symbol := targets + {to}]];
    }

    /** Erases `from -symbol-> to`, pruning an emptied target set and an
        emptied symbol map; the result says whether the arc was present. */
    method RemoveTransition(from: State, symbol: Symbol, to: State) returns (removed: bool)
      requires Valid()
      modifies this
      ensures Valid()
      ensures removed <==> Transition(from, symbol, to) in old(Triples())
      ensures Triples() == old(Triples()) - {Transition(from, symbol, to)}
      ensures |Triples()| == |old(Triples())| - if removed then 1 else 0
    {
      ghost var arc := Transition(from, symbol, to);
      if from !in transitions {
        return false;
      }
      var bySymbol: map<Symbol, set<State>> := transitions[from];
      if symbol !in bySymbol {
        return false;
      }
      var targets := bySymbol[symbol];
      if to !in targets {
        return false;
      }
      ghost var before := transitions;
      var targets': set<State> := targets - {to};
      if targets' != {} {
        transitions := transitions[from := bySymbol[symbol := targets']];
      } else {
        var bySymbol': map<Symbol, set<State>> := bySymbol - {symbol};
        if bySymbol' != map[] {
          transitions := transitions[from := bySymbol'];
        } else {
          transitions := transitions - {from};
        }
      }
      RemovedArc(before, transitions, arc, bySymbol, targets);
      return true;
    }

    /** The number of stored arcs, summed entry by entry. */
    method TransitionsCount() returns (n: nat)
      requires Valid()
      ensures n == |Triples()|
    {
      n := CountAll(transitions);
    }

    /** The target set stored for (`from`, `symbol`), or `None` when there is
        no such arc. */
    function Lookup(from: State, symbol: Symbol): (r: Option<set<State>>)
      reads this
      requires Valid()
      ensures r.None? <==> Post(Triples(), {from}, symbol) == {}
      ensures r.Some? ==> r.value == Post(Triples(), {from}, symbol)
    {
      if from !in transitions then
        assert Post(Triples(), {from}, symbol) == {};
        None
      else if symbol !in transitions[from] then
        assert Post(Triples(), {from}, symbol) == {};
        None
      else
        assert forall x :: x in transitions[from][symbol] ==> Transition(from, symbol, x) in Triples();
        assert Post(Triples(), {from}, symbol) == transitions[from][symbol];
        Some(transitions[from][symbol])
    }

    /** True iff every target set holds at most one state, scanning the
        entries and stopping at the first larger one. */
    method IsDeterministic() returns (r: bool)
      requires Valid()
      ensures r <==> Functional(Triples())
    {
      FunctionalEntries(transitions);
      var froms := transitions.Keys;
      while froms != {}
        invariant froms <= transitions.Keys
        invariant forall from, symbol ::
          from in transitions && from !in froms && symbol in transitions[from] ==> |transitions[from][symbol]| <= 1
        decreases |froms|
      {
        var from :| from in froms;
        var symbols := transitions[from].Keys;
        while symbols != {}
          invariant symbols <= transitions[from].Keys
          invariant forall symbol ::
            symbol in transitions[from] && symbol !in symbols ==> |transitions[from][symbol]| <= 1
          decreases |symbols|
        {
          var symbol :| symbol in symbols;
          if |transitions[from][symbol]| > 1 {
            return false;
          }
          symbols := symbols - {symbol};
        }
        froms := froms - {from};
      }
      return true;
    }

    /** Visits every stored arc exactly once; the sequence of visits is the
        sequence of calls the traversal makes to its callback. */
    method ForeachTransition() returns (arcs: seq<Transition>)
      requires Valid()
      ensures Distinct(arcs) && Elements(arcs) == Triples()
      ensures |arcs| == |Triples()|
    {
      arcs := VisitAll(transitions);
      DistinctCard(arcs);
    }
  }
}
