/** The regex compiler's second half: the postfix text is read one
    character at a time against a stack of automata. A literal (or
    backslash-escaped) character pushes the two-state automaton of that
    character, `*` stars the top automaton in place, and `+` and `|` pop the
    top automaton and concatenate it to, or join it with, the one below.
    The answer is the top of the stack, or the empty automaton when the
    stack is empty; operands left below the top are dropped, so
    juxtaposition is not concatenation. */
module Compiler {
  import opened Base
  import opened Language
  import opened Algebra
  import opened Automaton
  import opened Combine
  import opened Regex

  /** The automaton of one character: state 1 goes to state 2 on it. */
  function Single(c: Char8): Nfa
  {
    Nfa({Transition(1, SymbolOf(c), 2)}, {1}, {2})
  }

  /** The automaton the library builds for an expression tree. */
  ghost function Compile(r: Regex): Nfa
  {
    match r
    case Lit(c) => Single(c)
    case Alt(left, right) => UnionNfa(Compile(left), Compile(right))
    case Cat(left, right) => ConcatNfa(Compile(left), Compile(right))
    case Star(inner) => StarNfa(Compile(inner))
  }

  // ---------------------------------------------------------------------
  // The evaluation, one character at a time.

  /** The state of the evaluation: the operand stack (top last) and whether
      the previous character was an unconsumed backslash. */
  datatype Operands = Operands(stack: seq<Nfa>, escaped: bool)

  const NoOperands: Operands := Operands([], false)

  /** One character of the evaluation; an operator short of operands is an
      error. */
  ghost function Apply(st: Operands, c: Char8): Result<Operands, string>
  {
    var n := |st.stack|;
    if st.escaped then Ok(Operands(st.stack + [Single(c)], false))
    else if c == '\\' then Ok(st.(escaped := true))
    else if c == '*' then
      if n < 1 then Err("missing operand")
      else Ok(st.(stack := st.stack[..n - 1] + [StarNfa(st.stack[n - 1])]))
    else if c == '+' || c == '|' then
      if n < 2 then Err("missing operand")
      else
        var left, right := st.stack[n - 2], st.stack[n - 1];
        var joined := if c == '+' then ConcatNfa(left, right) else UnionNfa(left, right);
        Ok(st.(stack := st.stack[..n - 2] + [joined]))
    else Ok(Operands(st.stack + [Single(c)], false))
  }

  /** The state after evaluating `text` from `st`; the first error stops it. */
  ghost function EvalFrom(st: Operands, text: seq<Char8>): Result<Operands, string>
    decreases |text|
  {
    if text == [] then Ok(st)
    else
      match EvalFrom(st, text[..|text| - 1])
      case Err(e) => Err(e)
      case Ok(st') => Apply(st', text[|text| - 1])
  }

  /** The automaton of a postfix text: the top of the stack, or the empty
      automaton when nothing was pushed. */
  ghost function Eval(postfix: seq<Char8>): Result<Nfa, string>
  {
    match EvalFrom(NoOperands, postfix)
    case Err(e) => Err(e)
    case Ok(st) => Ok(if st.stack == [] then Nfa({}, {}, {}) else st.stack[|st.stack| - 1])
  }

  /** The automaton of an infix regex. */
  ghost function Translate(regex: seq<Char8>): Result<Nfa, string>
  {
    match Convert(regex)
    case Err(e) => Err(e)
    case Ok(postfix) => Eval(postfix)
  }

  // ---------------------------------------------------------------------
  // Properties of the evaluation.

  /** Evaluating a concatenation evaluates the first part, then the second. */
  lemma {:induction false} EvalAppend(st: Operands, a: seq<Char8>, b: seq<Char8>)
    ensures EvalFrom(st, a + b) == match EvalFrom(st, a)
                                   case Err(e) => Err(e)
                                   case Ok(st') => EvalFrom(st', b)
    decreases |b|
  {
    if b == [] {
      assert a + b == a;
    } else {
      var b' := b[..|b| - 1];
      assert (a + b)[..|a + b| - 1] == a + b';
      assert (a + b)[|a + b| - 1] == b[|b| - 1];
      EvalAppend(st, a, b');
    }
  }

  /** Once a prefix evaluates to `st'`, the rest evaluates on from `st'`. */
  lemma EvalThen(st: Operands, a: seq<Char8>, b: seq<Char8>, st': Operands)
    requires EvalFrom(st, a) == Ok(st')
    ensures EvalFrom(st, a + b) == EvalFrom(st', b)
  {
    EvalAppend(st, a, b);
  }

  /** A one-character text is one step. */
  lemma EvalOne(st: Operands, c: Char8)
    ensures EvalFrom(st, [c]) == Apply(st, c)
  {
    assert [c][..0] == [];
  }

  /** A literal character, quoted when special, pushes its automaton. */
  lemma EvalQuote(st: Operands, c: Char8)
    requires !st.escaped
    ensures EvalFrom(st, Quote(c)) == Ok(Operands(st.stack + [Single(c)], false))
  {
    if Special(c) {
      assert Quote(c)[..1] == ['\\'];
      assert ['\\'][..0] == [];
    } else {
      assert Quote(c)[..0] == [];
    }
  }

  /** Evaluating the postfix form of an expression pushes its automaton and
      leaves the rest of the stack as it was. */
  lemma {:induction false} EvalPostfix(st: Operands, r: Regex)
    requires !st.escaped
    ensures EvalFrom(st, Postfix(r)) == Ok(Operands(st.stack + [Compile(r)], false))
    decreases r, 1
  {
    match r
    case Lit(c) =>
      EvalQuote(st, c);
    case Star(inner) =>
      EvalPostfix(st, inner);
      var st1 := Operands(st.stack + [Compile(inner)], false);
      EvalThen(st, Postfix(inner), ['*'], st1);
      EvalOne(st1, '*');
      assert st1.stack[..|st.stack|] == st.stack;
    case Alt(left, right) =>
      EvalBinary(st, r, left, right, '|');
    case Cat(left, right) =>
      EvalBinary(st, r, left, right, '+');
  }

  /** The two binary cases of `EvalPostfix`: both operands are pushed, then
      the operator joins them. */
  lemma {:induction false} EvalBinary(st: Operands, r: Regex, left: Regex, right: Regex, op: Char8)
    requires !st.escaped
    requires (r == Alt(left, right) && op == '|') || (r == Cat(left, right) && op == '+')
    ensures EvalFrom(st, Postfix(r)) == Ok(Operands(st.stack + [Compile(r)], false))
    decreases r, 0
  {
    EvalPostfix(st, left);
    var st1 := Operands(st.stack + [Compile(left)], false);
    EvalPostfix(st1, right);
    var st2 := Operands(st1.stack + [Compile(right)], false);
    EvalThen(st, Postfix(left), Postfix(right), st1);
    EvalThen(st, Postfix(left) + Postfix(right), [op], st2);
    EvalOne(st2, op);
    ApplyJoin(st.stack, Compile(left), Compile(right), op);
    BinaryParts(r, left, right, op);
  }

  /** A binary operator over two pushed operands replaces them by their
      combination. */
  lemma ApplyJoin(stack: seq<Nfa>, left: Nfa, right: Nfa, op: Char8)
    requires op == '|' || op == '+'
    ensures Apply(Operands(stack + [left] + [right], false), op)
            == Ok(Operands(stack + [if op == '+' then ConcatNfa(left, right) else UnionNfa(left, right)], false))
  {
    assert (stack + [left] + [right])[..|stack|] == stack;
  }

  /** The postfix form and the automaton of a binary expression. */
  lemma BinaryParts(r: Regex, left: Regex, right: Regex, op: Char8)
    requires (r == Alt(left, right) && op == '|') || (r == Cat(left, right) && op == '+')
    ensures Postfix(r) == Postfix(left) + Postfix(right) + [op]
    ensures Compile(r) == if op == '+' then ConcatNfa(Compile(left), Compile(right))
                          else UnionNfa(Compile(left), Compile(right))
  {
  }

  /** Round trip: the printed form of an expression translates to the
      automaton of the expression. */
  lemma TranslateShow(r: Regex)
    ensures Translate(Show(r)) == Ok(Compile(r))
  {
    ConvertShow(r);
    EvalPostfix(NoOperands, r);
  }

  /** The empty regex gives the empty automaton. */
  lemma TranslateEmpty()
    ensures Translate([]) == Ok(Nfa({}, {}, {}))
  {
    assert Reverse<Char8>([]) == [];
  }

  // ---------------------------------------------------------------------
  // The evaluation as the library runs it, on automaton objects.

  /** The character constructor: the arc 1 -c-> 2, start state 1, final
      state 2. */
  method FromChar(c: Char8) returns (nfa: FiniteAutomaton)
    ensures fresh(nfa) && fresh(nfa.transitions)
    ensures nfa.Valid() && nfa.Model() == Single(c)
  {
    nfa := new FiniteAutomaton();
    var added := nfa.AddTransition(1, SymbolOf(c), 2);
    assert nfa.Model().trans == Single(c).trans;
    assert 1 in Sources(Single(c).trans) && 2 in Targets(Single(c).trans);
    Remark(nfa, {1}, {2});
  }

  /** The operand stack holds the values `vals`: each automaton is valid
      and stands for the value at its position, and no two share an object
      or an arc store. */
  ghost predicate Holds(operands: seq<FiniteAutomaton>, vals: seq<Nfa>)
    reads operands, set a | a in operands :: a.transitions
    decreases |operands|
  {
    && |operands| == |vals|
    && (operands != [] ==>
          var n := |operands| - 1;
          && Holds(operands[..n], vals[..n])
          && operands[n].Valid() && operands[n].Model() == vals[n]
          && forall a :: a in operands[..n] ==> a != operands[n] && a.transitions != operands[n].transitions)
  }

  /** A valid automaton of its own can go on top of the stack. */
  lemma HoldsPush(operands: seq<FiniteAutomaton>, vals: seq<Nfa>, nfa: FiniteAutomaton, v: Nfa)
    requires Holds(operands, vals) && nfa.Valid() && nfa.Model() == v
    requires forall a :: a in operands ==> a != nfa && a.transitions != nfa.transitions
    ensures Holds(operands + [nfa], vals + [v])
  {
    assert (operands + [nfa])[..|operands|] == operands;
    assert (vals + [v])[..|vals|] == vals;
  }

  /** The top of the stack is a valid automaton of its own standing for the
      top value, above a stack that holds the other values. */
  lemma HoldsTop(operands: seq<FiniteAutomaton>, vals: seq<Nfa>)
    requires Holds(operands, vals) && operands != []
    ensures |vals| == |operands|
    ensures operands[|operands| - 1].Valid() && operands[|operands| - 1].Model() == vals[|vals| - 1]
    ensures Holds(operands[..|operands| - 1], vals[..|vals| - 1])
    ensures forall a :: a in operands[..|operands| - 1] ==>
              a != operands[|operands| - 1] && a.transitions != operands[|operands| - 1].transitions
  {
  }

  /** Pushes the automaton of one character. */
  method Push(operands: seq<FiniteAutomaton>, ghost vals: seq<Nfa>, c: Char8)
    returns (operands': seq<FiniteAutomaton>)
    requires Holds(operands, vals)
    ensures Holds(operands', vals + [Single(c)])
    ensures forall a :: a in operands' ==> a in operands || (fresh(a) && fresh(a.transitions))
  {
    var nfa := FromChar(c);
    HoldsPush(operands, vals, nfa, Single(c));
    operands' := operands + [nfa];
    forall a | a in operands'
      ensures a in operands || a == nfa
    {
      var k :| 0 <= k < |operands'| && operands'[k] == a;
      if k < |operands| {
        assert operands[k] == a;
      }
    }
  }

  /** Stars the top automaton in place. */
  method StarTop(operands: seq<FiniteAutomaton>, ghost vals: seq<Nfa>)
    requires Holds(operands, vals) && |operands| >= 1
    modifies operands[|operands| - 1], operands[|operands| - 1].transitions
    ensures Holds(operands, vals[..|vals| - 1] + [StarNfa(vals[|vals| - 1])])
  {
    var n := |operands| - 1;
    var top := operands[n];
    HoldsTop(operands, vals);
    KleeneStar(top);
    assert operands[..n] + [top] == operands;
    HoldsPush(operands[..n], vals[..n], top, StarNfa(vals[n]));
  }

  /** Pops the top automaton and concatenates it to, or joins it with, the
      one below, in place. */
  method JoinTop(operands: seq<FiniteAutomaton>, ghost vals: seq<Nfa>, concat: bool)
    returns (operands': seq<FiniteAutomaton>)
    requires Holds(operands, vals) && |operands| >= 2
    modifies operands[|operands| - 2], operands[|operands| - 2].transitions
    ensures operands' == operands[..|operands| - 1]
    ensures forall a :: a in operands' ==> a in operands
    ensures Holds(operands', vals[..|vals| - 2] + [if concat then ConcatNfa(vals[|vals| - 2], vals[|vals| - 1])
                                                    else UnionNfa(vals[|vals| - 2], vals[|vals| - 1])])
  {
    var n := |operands| - 1;
    var right := operands[n];
    operands' := operands[..n];
    HoldsTop(operands, vals);
    HoldsTop(operands', vals[..n]);
    var left := operands'[n - 1];
    ghost var below := operands'[..n - 1];
    assert below + [left] == operands';
    assert vals[..n][..n - 1] == vals[..n - 1];
    JoinAbove(below, vals[..n - 1], left, right, concat);
  }

  /** Joins `right` into `left`, the top of a stack whose lower part is
      `below`; the lower part is left as it was. */
  method JoinAbove(ghost below: seq<FiniteAutomaton>, ghost bvals: seq<Nfa>,
                   left: FiniteAutomaton, right: FiniteAutomaton, concat: bool)
    requires Holds(below, bvals) && left.Valid() && right.Valid()
    requires left != right && left.transitions != right.transitions
    requires forall a :: a in below ==> a != left && a.transitions != left.transitions
    modifies left, left.transitions
    ensures Holds(below + [left], bvals + [if concat then ConcatNfa(old(left.Model()), right.Model())
                                           else UnionNfa(old(left.Model()), right.Model())])
  {
    ghost var v := if concat then ConcatNfa(left.Model(), right.Model()) else UnionNfa(left.Model(), right.Model());
    JoinPair(left, right, concat);
    HoldsPushOne(below, bvals, left, v);
  }

  /** Concatenates `right` to `left`, or joins them, in place. */
  method JoinPair(left: FiniteAutomaton, right: FiniteAutomaton, concat: bool)
    requires left.Valid() && right.Valid()
    requires left != right && left.transitions != right.transitions
    modifies left, left.transitions
    ensures Holds([left], [if concat then ConcatNfa(old(left.Model()), right.Model())
                           else UnionNfa(old(left.Model()), right.Model())])
  {
    if concat {
      Concatenate(left, right);
    } else {
      Union(left, right);
    }
    assert [left][..0] == [];
  }

  /** A one-automaton stack of its own can go on top of the stack. */
  lemma HoldsPushOne(operands: seq<FiniteAutomaton>, vals: seq<Nfa>, nfa: FiniteAutomaton, v: Nfa)
    requires Holds(operands, vals) && Holds([nfa], [v])
    requires forall a :: a in operands ==> a != nfa && a.transitions != nfa.transitions
    ensures Holds(operands + [nfa], vals + [v])
  {
    HoldsTop([nfa], [v]);
    HoldsPush(operands, vals, nfa, v);
  }

  /** Builds the automaton of an infix regex: converts it to postfix, then
      evaluates the postfix text on a stack of automata. An unmatched `)`
      and an operator short of operands are reported as errors. */
  method FromRegex(regex: seq<Char8>) returns (r: Result<FiniteAutomaton, string>)
    ensures r.Err? <==> Translate(regex).Err?
    ensures r.Err? ==> Translate(regex) == Err(r.error)
    ensures r.Ok? ==> fresh(r.value) && r.value.Valid() && r.value.Model() == Translate(regex).value
  {
    var converted := ToPostfix(regex);
    if converted.Err? {
      return Err(converted.error);
    }
    var postfix := converted.value;
    var operands: seq<FiniteAutomaton> := [];
    ghost var vals: seq<Nfa> := [];
    var ignore := false;
    var i := 0;
    while i < |postfix|
      invariant 0 <= i <= |postfix|
      invariant EvalFrom(NoOperands, postfix[..i]) == Ok(Operands(vals, ignore))
      invariant Holds(operands, vals)
      invariant forall a :: a in operands ==> fresh(a) && fresh(a.transitions)
    {
      EvalNext(postfix, i, Operands(vals, ignore));
      var ok;
      ok, operands, ignore, vals := EvalStep(operands, vals, ignore, postfix[i]);
      if !ok {
        EvalStops(postfix, i);
        return Err("missing operand");
      }
      i := i + 1;
    }
    assert postfix[..i] == postfix;
    var top := TopOrEmpty(operands, vals);
    return Ok(top);
  }

  /** The automaton left on top of the stack, or a new empty automaton when
      the stack is empty. */
  method TopOrEmpty(operands: seq<FiniteAutomaton>, ghost vals: seq<Nfa>) returns (top: FiniteAutomaton)
    requires Holds(operands, vals)
    ensures top.Valid()
    ensures top.Model() == if vals == [] then Nfa({}, {}, {}) else vals[|vals| - 1]
    ensures top in operands || (fresh(top) && fresh(top.transitions))
  {
    if operands == [] {
      top := new FiniteAutomaton();
      return;
    }
    HoldsTop(operands, vals);
    top := operands[|operands| - 1];
  }

  /** One character of the evaluation, on the objects: the operator of the
      character is applied to the stack, or `ok` is false when it is short
      of operands. */
  method EvalStep(operands: seq<FiniteAutomaton>, ghost vals: seq<Nfa>, ignore: bool, c: Char8)
    returns (ok: bool, operands': seq<FiniteAutomaton>, ignore': bool, ghost vals': seq<Nfa>)
    requires Holds(operands, vals)
    modifies set a | a in operands, set a | a in operands :: a.transitions
    ensures ok <==> Apply(Operands(vals, ignore), c).Ok?
    ensures ok ==> Apply(Operands(vals, ignore), c) == Ok(Operands(vals', ignore')) && Holds(operands', vals')
    ensures forall a :: a in operands' ==> a in operands || (fresh(a) && fresh(a.transitions))
  {
    ok, operands', ignore', vals' := true, operands, ignore, vals;
    if ignore {
      operands' := Push(operands, vals, c);
      ignore', vals' := false, vals + [Single(c)];
    } else if c == '\\' {
      ignore' := true;
    } else if c == '*' {
      if |operands| < 1 {
        return false, operands, ignore, vals;
      }
      StarTop(operands, vals);
      vals' := vals[..|vals| - 1] + [StarNfa(vals[|vals| - 1])];
    } else if c == '+' || c == '|' {
      if |operands| < 2 {
        return false, operands, ignore, vals;
      }
      vals' := vals[..|vals| - 2] + [if c == '+' then ConcatNfa(vals[|vals| - 2], vals[|vals| - 1])
                                     else UnionNfa(vals[|vals| - 2], vals[|vals| - 1])];
      operands' := JoinTop(operands, vals, c == '+');
    } else {
      operands' := Push(operands, vals, c);
      vals' := vals + [Single(c)];
    }
  }

  /** The evaluation of one more character goes on from the state before it. */
  lemma EvalNext(text: seq<Char8>, i: nat, st: Operands)
    requires i < |text| && EvalFrom(NoOperands, text[..i]) == Ok(st)
    ensures EvalFrom(NoOperands, text[..i + 1]) == Apply(st, text[i])
  {
    assert text[..i + 1][..i] == text[..i];
  }

  /** An error at one character is the error of the whole text. */
  lemma EvalStops(text: seq<Char8>, i: nat)
    requires i < |text| && EvalFrom(NoOperands, text[..i + 1]).Err?
    ensures EvalFrom(NoOperands, text) == EvalFrom(NoOperands, text[..i + 1])
  {
    assert text == text[..i + 1] + text[i + 1..];
    EvalAppend(NoOperands, text[..i + 1], text[i + 1..]);
  }
}
