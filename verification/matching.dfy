/** What the compiled automata accept. An expression denotes a set of
    words: a literal its one-symbol word, `|` either side, `+` a word of the
    left side followed by one of the right side, `*` any concatenation of
    words of its operand. Every compiled automaton accepts every word its
    expression denotes; the union is exact. The star can accept more (its
    start states become final without a fresh start state), so only the
    inclusion is claimed for it. */
module Matching {
  import opened Base
  import opened Language
  import opened Algebra
  import opened Regex
  import opened Compiler
  import opened SubsetConstruction

  /** The words an expression denotes. */
  ghost predicate Matches(r: Regex, w: seq<Symbol>)
    decreases r
  {
    match r
    case Lit(c) => w == [SymbolOf(c)]
    case Alt(left, right) => Matches(left, w) || Matches(right, w)
    case Cat(left, right) => exists i :: 0 <= i <= |w| && Matches(left, w[..i]) && Matches(right, w[i..])
    case Star(inner) => exists ws :: Flatten(ws) == w && forall j :: 0 <= j < |ws| ==> Matches(inner, ws[j])
  }

  /** The shape every compiled automaton has: well formed, without state 0
      (so the renumbering of the algebra keeps operands apart), and with a
      start state. */
  ghost predicate Good(A: Nfa)
  {
    WellFormed(A) && 0 !in Endpoints(A.trans) && A.starts != {}
  }

  // ---------------------------------------------------------------------
  // The shape is kept.

  lemma EndpointsUnion(T: set<Transition>, U: set<Transition>)
    ensures Endpoints(T + U) == Endpoints(T) + Endpoints(U)
  {
    EndpointsMono(T, T + U);
    EndpointsMono(U, T + U);
    forall s | s in Endpoints(T + U)
      ensures s in Endpoints(T) + Endpoints(U)
    {
      if s in Sources(T + U) {
        var t :| t in T + U && t.from == s;
        assert t in T ==> s in Sources(T);
      } else {
        var t :| t in T + U && t.to == s;
        assert t in T ==> s in Targets(T);
      }
    }
  }

  lemma BridgeEndpoints(F: set<State>, S: set<State>)
    ensures Endpoints(Bridge(F, S)) <= F + S
  {
    forall s | s in Endpoints(Bridge(F, S))
      ensures s in F + S
    {
      if s in Sources(Bridge(F, S)) {
        var t :| t in Bridge(F, S) && t.from == s;
      } else {
        var t :| t in Bridge(F, S) && t.to == s;
      }
    }
  }

  lemma GoodSingle(c: Char8)
    ensures Good(Single(c))
  {
    var t := Transition(1, SymbolOf(c), 2);
    assert Sources(Single(c).trans) == {1} && Targets(Single(c).trans) == {2};
  }

  /** The union of two good automata is good. */
  lemma GoodUnion(A: Nfa, B: Nfa)
    requires Good(A) && Good(B)
    ensures Good(UnionNfa(A, B))
  {
    var k := Offset(A);
    var C := Shift(B, k);
    ShiftWellFormed(B, k);
    AboveOffset(B, k);
    EndpointsUnion(A.trans, C.trans);
  }

  /** The concatenation of two good automata is good. */
  lemma GoodConcat(A: Nfa, B: Nfa)
    requires Good(A) && Good(B)
    ensures Good(ConcatNfa(A, B))
  {
    var k := Offset(A);
    var C := Shift(B, k);
    ShiftWellFormed(B, k);
    AboveOffset(B, k);
    EndpointsUnion(A.trans, C.trans);
    EndpointsUnion(A.trans + C.trans, Bridge(A.finals, C.starts));
    BridgeEndpoints(A.finals, C.starts);
  }

  /** The star of a good automaton is good. */
  lemma GoodStar(A: Nfa)
    requires Good(A)
    ensures Good(StarNfa(A))
  {
    EndpointsUnion(A.trans, Bridge(A.finals, A.starts));
    BridgeEndpoints(A.finals, A.starts);
  }

  /** Every compiled automaton is good. */
  lemma {:induction false} GoodCompile(r: Regex)
    ensures Good(Compile(r))
  {
    match r
    case Lit(c) =>
      GoodSingle(c);
    case Alt(left, right) =>
      GoodCompile(left);
      GoodCompile(right);
      GoodUnion(Compile(left), Compile(right));
    case Cat(left, right) =>
      GoodCompile(left);
      GoodCompile(right);
      GoodConcat(Compile(left), Compile(right));
    case Star(inner) =>
      GoodCompile(inner);
      GoodStar(Compile(inner));
  }

  // ---------------------------------------------------------------------
  // The language.

  /** The automaton of a character accepts that character. */
  lemma SingleAccepts(c: Char8)
    ensures Accepts(Single(c), [SymbolOf(c)])
  {
    var A := Single(c);
    var s := SymbolOf(c);
    NoEpsilonClosed(A.trans, {1});
    assert Post(A.trans, {1}, s) == {2};
    NoEpsilonClosed(A.trans, {2});
    assert s != Epsilon && [s][1..] == [];
    assert Run(A.trans, {2}, []) == {2};
    assert Run(A.trans, {1}, [s]) == {2};
  }

  /** Every word an expression denotes is accepted by its automaton. */
  lemma {:induction false} CompileComplete(r: Regex, w: seq<Symbol>)
    requires Matches(r, w)
    ensures Accepts(Compile(r), w)
    decreases r
  {
    match r
    case Lit(c) =>
      SingleAccepts(c);
    case Alt(left, right) =>
      if Matches(left, w) {
        CompileComplete(left, w);
      } else {
        CompileComplete(right, w);
      }
      AltExact(left, right, w);
    case Cat(left, right) =>
      var i :| 0 <= i <= |w| && Matches(left, w[..i]) && Matches(right, w[i..]);
      CompileComplete(left, w[..i]);
      CompileComplete(right, w[i..]);
      CatExact(left, right, w);
    case Star(inner) =>
      var ws :| Flatten(ws) == w && forall j :: 0 <= j < |ws| ==> Matches(inner, ws[j]);
      forall j | 0 <= j < |ws|
        ensures Accepts(Compile(inner), ws[j])
      {
        CompileComplete(inner, ws[j]);
      }
      StarComplete(inner, ws);
  }

  /** The automaton of a star accepts every concatenation of words of the
      inner automaton. */
  lemma StarComplete(inner: Regex, ws: seq<seq<Symbol>>)
    requires forall j :: 0 <= j < |ws| ==> Accepts(Compile(inner), ws[j])
    ensures Accepts(Compile(Star(inner)), Flatten(ws))
  {
    GoodCompile(inner);
    AcceptsStar(Compile(inner), ws);
  }

  /** The automaton of a concatenation accepts exactly the words that split
      into a word of the left side's automaton and one of the right side's. */
  lemma CatExact(left: Regex, right: Regex, w: seq<Symbol>)
    ensures Accepts(Compile(Cat(left, right)), w) <==>
              exists i :: 0 <= i <= |w| && Accepts(Compile(left), w[..i]) && Accepts(Compile(right), w[i..])
  {
    GoodCompile(left);
    GoodCompile(right);
    ConcatLanguage(Compile(left), Compile(right), w);
  }

  /** The automaton of an alternative accepts exactly the words of either
      side's automaton. */
  lemma AltExact(left: Regex, right: Regex, w: seq<Symbol>)
    ensures Accepts(Compile(Alt(left, right)), w) <==> Accepts(Compile(left), w) || Accepts(Compile(right), w)
  {
    GoodCompile(left);
    GoodCompile(right);
    AcceptsUnion(Compile(left), Compile(right), w);
  }

  // ---------------------------------------------------------------------
  // Determinizing keeps the words.

  /** A word accepted from the seed that starts with a real symbol makes
      the seed step to a non-empty set on an alphabet symbol. */
  lemma SeedSteps(A: Nfa, w: seq<Symbol>)
    requires Accepts(A, w) && w != [] && w[0] != Epsilon
    ensures w[0] in Alphabet(A.trans) && Step(A.trans, Seed(A), w[0]) != {}
  {
    var T := A.trans;
    var S := Step(T, Seed(A), w[0]);
    assert Reach(A, w) == Run(T, S, w[1..]);
    if S == {} {
      RunEmpty(T, w[1..]);
      assert false;
    }
    if Post(T, Seed(A), w[0]) == {} {
      ClosureOfClosed(T, {});
      assert false;
    }
    var t :| t in T && t.from in Seed(A) && t.sym == w[0];
    assert w[0] in Labels(T);
  }

  /** The subset automaton keeps every word of the source automaton that
      starts with a real symbol: such a word makes the seed step somewhere,
      so state 1 has an arc and is the start state. */
  lemma DeterminizeKeeps(A: Nfa, D: Nfa, sub: map<State, set<State>>, w: seq<Symbol>)
    requires IsSubsetAutomaton(A, D, sub) && Accepts(A, w)
    requires w != [] && w[0] != Epsilon
    ensures Accepts(D, w)
  {
    SeedSteps(A, w);
    SeedHasArc(A, D, sub, w[0]);
    SubsetAccepts(A, D, sub, w);
  }

  /** A seed that steps somewhere on an alphabet symbol gives state 1 an arc. */
  lemma SeedHasArc(A: Nfa, D: Nfa, sub: map<State, set<State>>, a: Symbol)
    requires IsSubsetAutomaton(A, D, sub)
    requires a in Alphabet(A.trans) && Step(A.trans, Seed(A), a) != {}
    ensures 1 in Endpoints(D.trans)
  {
    assert ExpandedOn(A, D, sub, 1, Alphabet(A.trans));
    var q :| q in sub && Transition(1, a, q) in D.trans;
    assert 1 in Sources(D.trans);
  }

  // ---------------------------------------------------------------------
  // The library's own example: `a|b+c*`.

  const Example: Regex := Alt(Lit('a'), Cat(Lit('b'), Star(Lit('c'))))

  /** One more character of the conversion. */
  lemma ScanSnoc(text: seq<Char8>, c: Char8, s: Scanner)
    requires ScanFrom(Start, text) == Ok(s)
    ensures ScanFrom(Start, text + [c]) == Feed(s, c)
  {
    ScanThen(Start, text, [c], s);
    ScanOne(s, c);
  }

  /** `a|b+c*` converts to the postfix form of the example, `abc*+|`. */
  lemma ExampleConverts()
    ensures Convert("a|b+c*") == Ok(Postfix(Example))
  {
    ExampleScan();
    ExamplePostfix();
    assert Reverse<Char8>([]) == [];
    assert Reverse("|") == "|";
    assert Reverse("|+") == "+|";
    assert "abc*" + "+|" == "abc*+|";
  }

  /** The scan of `a|b+c*` outputs `abc*` and leaves `|+` on the stack. */
  lemma ExampleScan()
    ensures ScanFrom(Start, "a|b+c*") == Ok(Scanner("abc*", "|+", false))
  {
    var s3, s4, s5 := Scanner("ab", "|", false), Scanner("ab", "|+", false), Scanner("abc", "|+", false);
    ExampleScanFirst();
    ScanSnoc("a|b", '+', s3);
    assert "|" + ['+'] == "|+" && "a|b" + ['+'] == "a|b+";
    ScanSnoc("a|b+", 'c', s4);
    assert "ab" + ['c'] == "abc" && "a|b+" + ['c'] == "a|b+c";
    ScanSnoc("a|b+c", '*', s5);
    assert "abc" + ['*'] == "abc*" && "a|b+c" + ['*'] == "a|b+c*";
  }

  /** The scan of `a|` outputs `a` and leaves `|` on the stack. */
  lemma ExampleScanBar()
    ensures ScanFrom(Start, "a|") == Ok(Scanner("a", "|", false))
  {
    var s1 := Scanner("a", [], false);
    ScanOne(Start, 'a');
    assert Feed(Start, 'a') == Ok(s1) by {
      assert [] + ['a'] == "a";
    }
    ScanSnoc("a", '|', s1);
    assert Feed(s1, '|') == Ok(Scanner("a", "|", false)) by {
      assert FlushConcat("a", []) == ("a", []);
      assert [] + ['|'] == "|";
    }
    assert "a" + ['|'] == "a|";
  }

  /** The scan of `a|b` outputs `ab` and leaves `|` on the stack. */
  lemma ExampleScanFirst()
    ensures ScanFrom(Start, "a|b") == Ok(Scanner("ab", "|", false))
  {
    var s2 := Scanner("a", "|", false);
    ExampleScanBar();
    ScanSnoc("a|", 'b', s2);
    assert Feed(s2, 'b') == Ok(Scanner("ab", "|", false)) by {
      assert "a" + ['b'] == "ab";
    }
    assert "a|" + ['b'] == "a|b";
  }

  /** The postfix form of the example is `abc*+|`. */
  lemma ExamplePostfix()
    ensures Postfix(Example) == "abc*+|"
  {
    assert !Special('a') && !Special('b') && !Special('c');
    assert Postfix(Star(Lit('c'))) == "c*";
    assert Postfix(Cat(Lit('b'), Star(Lit('c')))) == "b" + "c*" + "+";
    assert "b" + "c*" + "+" == "bc*+";
    assert "a" + "bc*+" + "|" == "abc*+|";
  }

  /** `a|b+c*` builds the automaton of the example. */
  lemma ExampleTranslates()
    ensures Translate("a|b+c*") == Ok(Compile(Example))
  {
    ExampleConverts();
    EvalPostfix(NoOperands, Example);
  }

  /** A concatenation of words of an expression is a word of its star. */
  lemma StarOf(inner: Regex, ws: seq<seq<Symbol>>)
    requires forall j :: 0 <= j < |ws| ==> Matches(inner, ws[j])
    ensures Matches(Star(inner), Flatten(ws))
  {
  }

  /** `c*` denotes the words of zero, one and two `c`. */
  lemma StarC()
    ensures Matches(Star(Lit('c')), [])
    ensures Matches(Star(Lit('c')), [SymbolOf('c')])
    ensures Matches(Star(Lit('c')), [SymbolOf('c'), SymbolOf('c')])
  {
    var c := SymbolOf('c');
    StarOf(Lit('c'), []);
    assert Flatten([]) == [];
    assert Matches(Lit('c'), [c]);
    var one: seq<seq<Symbol>> := [[c]];
    StarOf(Lit('c'), one);
    assert one[..0] == [];
    assert Flatten(one) == [c];
    var two: seq<seq<Symbol>> := [[c], [c]];
    StarOf(Lit('c'), two);
    assert two[..1] == one;
    assert Flatten(two) == [c, c];
  }

  /** `b+c*` denotes `b` followed by any of those. */
  lemma BThenC(rest: seq<Symbol>)
    requires Matches(Star(Lit('c')), rest)
    ensures Matches(Example, [SymbolOf('b')] + rest)
  {
    var w := [SymbolOf('b')] + rest;
    assert w[..1] == [SymbolOf('b')] && w[1..] == rest;
    assert Matches(Cat(Lit('b'), Star(Lit('c'))), w);
  }

  /** The example denotes `a`, `b`, `bc` and `bcc`. */
  lemma ExampleMatches()
    ensures Matches(Example, [SymbolOf('a')])
    ensures Matches(Example, [SymbolOf('b')])
    ensures Matches(Example, [SymbolOf('b'), SymbolOf('c')])
    ensures Matches(Example, [SymbolOf('b'), SymbolOf('c'), SymbolOf('c')])
  {
    var b, c := SymbolOf('b'), SymbolOf('c');
    assert Matches(Lit('a'), [SymbolOf('a')]);
    StarC();
    BThenC([]);
    assert [b] + [] == [b];
    BThenC([c]);
    assert [b] + [c] == [b, c];
    BThenC([c, c]);
    assert [b] + [c, c] == [b, c, c];
  }

  /** The example's automaton accepts `a`, `b`, `bc` and `bcc`. */
  lemma ExampleAccepts()
    ensures Accepts(Compile(Example), [SymbolOf('a')])
    ensures Accepts(Compile(Example), [SymbolOf('b')])
    ensures Accepts(Compile(Example), [SymbolOf('b'), SymbolOf('c')])
    ensures Accepts(Compile(Example), [SymbolOf('b'), SymbolOf('c'), SymbolOf('c')])
  {
    var b, c := SymbolOf('b'), SymbolOf('c');
    ExampleMatches();
    CompileComplete(Example, [SymbolOf('a')]);
    CompileComplete(Example, [b]);
    CompileComplete(Example, [b, c]);
    CompileComplete(Example, [b, c, c]);
  }

  /** The example's words are accepted after one round of determinization
      and again after a second one. */
  lemma ExampleRounds(D1: Nfa, sub1: map<State, set<State>>, D2: Nfa, sub2: map<State, set<State>>)
    requires IsSubsetAutomaton(Compile(Example), D1, sub1) && IsSubsetAutomaton(D1, D2, sub2)
    ensures Accepts(D1, [SymbolOf('a')]) && Accepts(D2, [SymbolOf('a')])
    ensures Accepts(D1, [SymbolOf('b')]) && Accepts(D2, [SymbolOf('b')])
    ensures Accepts(D1, [SymbolOf('b'), SymbolOf('c')]) && Accepts(D2, [SymbolOf('b'), SymbolOf('c')])
    ensures Accepts(D1, [SymbolOf('b'), SymbolOf('c'), SymbolOf('c')])
    ensures Accepts(D2, [SymbolOf('b'), SymbolOf('c'), SymbolOf('c')])
  {
    var a, b, c := SymbolOf('a'), SymbolOf('b'), SymbolOf('c');
    ExampleAccepts();
    DeterminizeKeeps(Compile(Example), D1, sub1, [a]);
    DeterminizeKeeps(D1, D2, sub2, [a]);
    DeterminizeKeeps(Compile(Example), D1, sub1, [b]);
    DeterminizeKeeps(D1, D2, sub2, [b]);
    DeterminizeKeeps(Compile(Example), D1, sub1, [b, c]);
    DeterminizeKeeps(D1, D2, sub2, [b, c]);
    DeterminizeKeeps(Compile(Example), D1, sub1, [b, c, c]);
    DeterminizeKeeps(D1, D2, sub2, [b, c, c]);
  }
}
