/** The regular-expression syntax of the library and its conversion from
    infix to postfix. `+` is the explicit concatenation operator, `|` the
    alternative, `*` the postfix star, parentheses group, and a backslash
    makes the next character a literal. The conversion keeps a stack of
    pending operators: `*` goes straight to the output, `|` first flushes
    the `+` operators on top of the stack, `)` pops back to its `(`, and
    what is left on the stack at the end is appended in reverse. */
module Regex {
  import opened Base

  /** A C++ `char`: one byte. */
  type Char8 = c: char | c as int < 0x100 witness 'a'

  /** The symbol a character stands for. `char` is taken to be signed, so
      bytes from 0x80 on are negative; none of them is ε. */
  function SymbolOf(c: Char8): (s: Symbol)
  {
    if c as int < 0x80 then c as int else c as int - 0x100
  }

  /** The characters with a meaning of their own in the regex syntax. */
  predicate Special(c: Char8)
  {
    c == '\\' || c == '(' || c == ')' || c == '*' || c == '|' || c == '+'
  }

  /** Regular expressions as trees. */
  datatype Regex =
    | Lit(c: Char8)
    | Alt(left: Regex, right: Regex)
    | Cat(left: Regex, right: Regex)
    | Star(inner: Regex)

  /** A literal character as written in a regex: escaped when special. */
  function Quote(c: Char8): seq<Char8>
  {
    if Special(c) then ['\\', c] else [c]
  }

  /** The expression in infix syntax, every binary operator in its own
      parentheses. */
  function Show(r: Regex): seq<Char8>
  {
    match r
    case Lit(c) => Quote(c)
    case Alt(left, right) => ['('] + Show(left) + ['|'] + Show(right) + [')']
    case Cat(left, right) => ['('] + Show(left) + ['+'] + Show(right) + [')']
    case Star(inner) => Show(inner) + ['*']
  }

  /** The expression in postfix syntax: operands first, then the operator. */
  function Postfix(r: Regex): seq<Char8>
  {
    match r
    case Lit(c) => Quote(c)
    case Alt(left, right) => Postfix(left) + Postfix(right) + ['|']
    case Cat(left, right) => Postfix(left) + Postfix(right) + ['+']
    case Star(inner) => Postfix(inner) + ['*']
  }

  // ---------------------------------------------------------------------
  // The conversion, one character at a time.

  /** The state of the conversion: the output so far, the stack of pending
      operators (top last), and whether the previous character was an
      unconsumed backslash. */
  datatype Scanner = Scanner(out: seq<Char8>, ops: seq<Char8>, escaped: bool)

  const Start: Scanner := Scanner([], [], false)

  /** Pops operators to the output down to the nearest `(`, which is
      dropped; with no `(` on the stack the `)` is unmatched. */
  function CloseGroup(out: seq<Char8>, ops: seq<Char8>): (r: Result<Scanner, string>)
    ensures r.Ok? ==> !r.value.escaped && |r.value.ops| < |ops|
    decreases |ops|
  {
    if ops == [] then Err("unmatched )")
    else if ops[|ops| - 1] == '(' then Ok(Scanner(out, ops[..|ops| - 1], false))
    else CloseGroup(out + [ops[|ops| - 1]], ops[..|ops| - 1])
  }

  /** Pops the `+` operators on top of the stack to the output. */
  function FlushConcat(out: seq<Char8>, ops: seq<Char8>): (r: (seq<Char8>, seq<Char8>))
    ensures |r.1| <= |ops| && (r.1 == [] || r.1[|r.1| - 1] != '+')
    decreases |ops|
  {
    if ops != [] && ops[|ops| - 1] == '+' then FlushConcat(out + ['+'], ops[..|ops| - 1])
    else (out, ops)
  }

  /** One character of the conversion. */
  function Feed(s: Scanner, c: Char8): Result<Scanner, string>
  {
    if s.escaped then Ok(Scanner(s.out + ['\\', c], s.ops, false))
    else if c == '\\' then Ok(s.(escaped := true))
    else if c == '(' then Ok(s.(ops := s.ops + ['(']))
    else if c == ')' then CloseGroup(s.out, s.ops)
    else if c == '*' then Ok(s.(out := s.out + ['*']))
    else if c == '|' then
      var (out, ops) := FlushConcat(s.out, s.ops);
      Ok(Scanner(out, ops + ['|'], false))
    else if c == '+' then Ok(s.(ops := s.ops + ['+']))
    else Ok(s.(out := s.out + [c]))
  }

  /** The state after feeding `text` from `s`; the first error stops it. */
  function ScanFrom(s: Scanner, text: seq<Char8>): Result<Scanner, string>
    decreases |text|
  {
    if text == [] then Ok(s)
    else
      match ScanFrom(s, text[..|text| - 1])
      case Err(e) => Err(e)
      case Ok(s') => Feed(s', text[|text| - 1])
  }

  function Reverse<T>(xs: seq<T>): seq<T>
  {
    if xs == [] then [] else [xs[|xs| - 1]] + Reverse(xs[..|xs| - 1])
  }

  /** The postfix form of an infix regex: the output followed by the
      operators left on the stack, top first. */
  function Convert(regex: seq<Char8>): Result<seq<Char8>, string>
  {
    match ScanFrom(Start, regex)
    case Err(e) => Err(e)
    case Ok(s) => Ok(s.out + Reverse(s.ops))
  }

  // ---------------------------------------------------------------------
  // Properties of the conversion.

  /** Scanning a concatenation scans the first part, then the second. */
  lemma {:induction false} ScanAppend(s: Scanner, a: seq<Char8>, b: seq<Char8>)
    ensures ScanFrom(s, a + b) == match ScanFrom(s, a)
                                 case Err(e) => Err(e)
                                 case Ok(s') => ScanFrom(s', b)
    decreases |b|
  {
    if b == [] {
      assert a + b == a;
    } else {
      var b' := b[..|b| - 1];
      assert (a + b)[..|a + b| - 1] == a + b';
      assert (a + b)[|a + b| - 1] == b[|b| - 1];
      ScanAppend(s, a, b');
    }
  }

  /** Scanning a literal character, quoted when special, outputs it as it
      is quoted. */
  lemma ScanQuote(s: Scanner, c: Char8)
    requires !s.escaped
    ensures ScanFrom(s, Quote(c)) == Ok(s.(out := s.out + Quote(c)))
  {
    if Special(c) {
      assert Quote(c)[..1] == ['\\'];
      assert ['\\'][..0] == [];
    } else {
      assert Quote(c)[..0] == [];
    }
  }

  /** Scanning the fully parenthesised infix form of an expression appends
      its postfix form to the output and leaves the operator stack as it
      was, whatever it held. */
  lemma {:induction false} ScanShow(s: Scanner, r: Regex)
    requires !s.escaped
    ensures ScanFrom(s, Show(r)) == Ok(s.(out := s.out + Postfix(r)))
    decreases r, 2
  {
    match r
    case Lit(c) =>
      ScanQuote(s, c);
    case Star(inner) =>
      ScanShow(s, inner);
      ScanAppend(s, Show(inner), ['*']);
      assert ['*'][..0] == [];
      assert s.out + Postfix(inner) + ['*'] == s.out + Postfix(r);
    case Alt(left, right) =>
      ScanBinary(s, r, '|');
    case Cat(left, right) =>
      ScanBinary(s, r, '+');
  }

  /** A one-character text is one step. */
  lemma ScanOne(s: Scanner, c: Char8)
    ensures ScanFrom(s, [c]) == Feed(s, c)
  {
    assert [c][..0] == [];
  }

  /** A binary operator right after an opening parenthesis is pushed. */
  lemma OperatorStep(s: Scanner, op: Char8)
    requires !s.escaped && s.ops != [] && s.ops[|s.ops| - 1] == '('
    requires op == '|' || op == '+'
    ensures Feed(s, op) == Ok(s.(ops := s.ops + [op]))
  {
  }

  /** A closing parenthesis over `(` and one operator pops the operator to
      the output and drops the `(`. */
  lemma CloseStep(s: Scanner, ops: seq<Char8>, op: Char8)
    requires !s.escaped && s.ops == ops + ['(', op] && op != '('
    ensures Feed(s, ')') == Ok(Scanner(s.out + [op], ops, false))
  {
    var rest := s.ops[..|s.ops| - 1];
    assert rest == ops + ['('];
    assert rest[..|rest| - 1] == ops;
    assert CloseGroup(s.out + [op], rest) == Ok(Scanner(s.out + [op], ops, false));
  }

  /** The two binary cases of `ScanShow`: inside the parentheses the stack
      holds `(` under the operator, so `|` flushes nothing, and `)` pops the
      operator to the output. */
  lemma {:induction false} ScanBinary(s: Scanner, r: Regex, op: Char8)
    requires !s.escaped
    requires (r.Alt? && op == '|') || (r.Cat? && op == '+')
    ensures ScanFrom(s, Show(r)) == Ok(s.(out := s.out + Postfix(r)))
    decreases r, 1
  {
    var left, right := r.left, r.right;
    var middle := ['('] + Show(left) + [op];
    var body := middle + Show(right);
    ScanOpen(s, r, op);
    var s3 := Scanner(s.out + Postfix(left), s.ops + ['(', op], false);
    ScanShow(s3, right);
    ScanThen(s, middle, Show(right), s3);
    ScanClose(s, body, s.out + Postfix(left) + Postfix(right), op);
    BinaryForms(r, op);
    assert Show(r) == body + [')'];
    AppendAssoc(s.out, Postfix(left), Postfix(right), [op]);
  }

  lemma AppendAssoc<T>(a: seq<T>, b: seq<T>, c: seq<T>, d: seq<T>)
    ensures a + b + c + d == a + (b + c + d)
  {
  }

  /** The printed and postfix forms of a binary expression. */
  lemma BinaryForms(r: Regex, op: Char8)
    requires (r.Alt? && op == '|') || (r.Cat? && op == '+')
    ensures Show(r) == ['('] + Show(r.left) + [op] + Show(r.right) + [')']
    ensures Postfix(r) == Postfix(r.left) + Postfix(r.right) + [op]
  {
  }

  /** The closing parenthesis of a binary expression pops its operator to
      the output. */
  lemma ScanClose(s: Scanner, body: seq<Char8>, out: seq<Char8>, op: Char8)
    requires ScanFrom(s, body) == Ok(Scanner(out, s.ops + ['(', op], false)) && op != '('
    ensures ScanFrom(s, body + [')']) == Ok(Scanner(out + [op], s.ops, false))
  {
    var s4 := Scanner(out, s.ops + ['(', op], false);
    ScanOne(s4, ')');
    CloseStep(s4, s.ops, op);
    ScanThen(s, body, [')'], s4);
  }

  /** The opening half of `ScanBinary`: the parenthesis, the left operand
      and the operator. */
  lemma {:induction false} ScanOpen(s: Scanner, r: Regex, op: Char8)
    requires !s.escaped
    requires (r.Alt? && op == '|') || (r.Cat? && op == '+')
    ensures ScanFrom(s, ['('] + Show(r.left) + [op])
            == Ok(Scanner(s.out + Postfix(r.left), s.ops + ['(', op], false))
    decreases r, 0
  {
    var open := ['('] + Show(r.left);
    var s1 := s.(ops := s.ops + ['(']);
    ScanOne(s, '(');
    ScanShow(s1, r.left);
    var s2 := s1.(out := s.out + Postfix(r.left));
    ScanThen(s, ['('], Show(r.left), s1);
    ScanOne(s2, op);
    OperatorStep(s2, op);
    assert s2.ops + [op] == s.ops + ['(', op];
    ScanThen(s, open, [op], s2);
  }

  /** Once a prefix scans to `s'`, the rest scans on from `s'`. */
  lemma ScanThen(s: Scanner, a: seq<Char8>, b: seq<Char8>, s': Scanner)
    requires ScanFrom(s, a) == Ok(s')
    ensures ScanFrom(s, a + b) == ScanFrom(s', b)
  {
    ScanAppend(s, a, b);
  }

  /** Round trip: converting the printed form of an expression gives its
      postfix form. */
  lemma ConvertShow(r: Regex)
    ensures Convert(Show(r)) == Ok(Postfix(r))
  {
    ScanShow(Start, r);
    assert Reverse<Char8>([]) == [];
    assert [] + Postfix(r) + [] == Postfix(r);
  }

  /** Closing a group fails exactly when no `(` is pending. */
  lemma {:induction false} CloseGroupFails(out: seq<Char8>, ops: seq<Char8>)
    ensures CloseGroup(out, ops).Err? <==> '(' !in ops
    decreases |ops|
  {
    if ops != [] {
      assert ops == ops[..|ops| - 1] + [ops[|ops| - 1]];
      if ops[|ops| - 1] != '(' {
        CloseGroupFails(out + [ops[|ops| - 1]], ops[..|ops| - 1]);
      }
    }
  }

  /** After a prefix that scans without an error, a `)` is rejected exactly
      when no `(` is pending. */
  lemma UnmatchedClose(text: seq<Char8>, s: Scanner)
    requires ScanFrom(Start, text) == Ok(s) && !s.escaped
    ensures Convert(text + [')']).Err? <==> '(' !in s.ops
  {
    assert (text + [')'])[..|text|] == text;
    CloseGroupFails(s.out, s.ops);
  }

  // ---------------------------------------------------------------------
  // The conversion as the library runs it.

  /** Converts an infix regex to postfix, or reports an unmatched `)`. */
  method ToPostfix(regex: seq<Char8>) returns (r: Result<seq<Char8>, string>)
    ensures r == Convert(regex)
  {
    var answer: seq<Char8> := [];
    var operators: seq<Char8> := [];
    var ignore := false;
    var i := 0;
    while i < |regex|
      invariant 0 <= i <= |regex|
      invariant ScanFrom(Start, regex[..i]) == Ok(Scanner(answer, operators, ignore))
    {
      var c := regex[i];
      assert regex[..i + 1][..i] == regex[..i];
      if ignore {
        answer := answer + ['\\', c];
        ignore := false;
      } else if c == '\\' {
        ignore := true;
      } else if c == '(' {
        operators := operators + ['('];
      } else if c == ')' {
        var closed := PopGroup(answer, operators);
        if closed.Err? {
          assert regex == regex[..i + 1] + regex[i + 1..];
          ScanAppend(Start, regex[..i + 1], regex[i + 1..]);
          return Err(closed.error);
        }
        answer, operators := closed.value.out, closed.value.ops;
      } else if c == '*' {
        answer := answer + ['*'];
      } else if c == '|' {
        answer, operators := PopConcat(answer, operators);
        operators := operators + ['|'];
      } else if c == '+' {
        operators := operators + ['+'];
      } else {
        answer := answer + [c];
      }
      i := i + 1;
    }
    assert regex[..i] == regex;
    var rest := ReverseOf(operators);
    r := Ok(answer + rest);
  }

  /** The loop of `)`: pops operators to the output until `(`. */
  method PopGroup(answer: seq<Char8>, operators: seq<Char8>) returns (r: Result<Scanner, string>)
    ensures r == CloseGroup(answer, operators)
  {
    var out, ops := answer, operators;
    while ops != [] && ops[|ops| - 1] != '('
      invariant CloseGroup(out, ops) == CloseGroup(answer, operators)
      decreases |ops|
    {
      out, ops := out + [ops[|ops| - 1]], ops[..|ops| - 1];
    }
    if ops == [] {
      return Err("unmatched )");
    }
    r := Ok(Scanner(out, ops[..|ops| - 1], false));
  }

  /** The loop of `|`: pops the `+` operators on top to the output. */
  method PopConcat(answer: seq<Char8>, operators: seq<Char8>) returns (out: seq<Char8>, ops: seq<Char8>)
    ensures (out, ops) == FlushConcat(answer, operators)
  {
    out, ops := answer, operators;
    while ops != [] && ops[|ops| - 1] == '+'
      invariant FlushConcat(out, ops) == FlushConcat(answer, operators)
      decreases |ops|
    {
      out, ops := out + ['+'], ops[..|ops| - 1];
    }
  }

  /** The operators left on the stack, top first. */
  method ReverseOf(operators: seq<Char8>) returns (r: seq<Char8>)
    ensures r == Reverse(operators)
  {
    r := [];
    var i := 0;
    assert operators[..|operators|] == operators;
    while i < |operators|
      invariant 0 <= i <= |operators|
      invariant Reverse(operators) == r + Reverse(operators[..|operators| - i])
    {
      var n := |operators| - i;
      assert operators[..n][..n - 1] == operators[..n - 1];
      r := r + [operators[n - 1]];
      i := i + 1;
    }
    assert operators[..0] == [];
  }
}
