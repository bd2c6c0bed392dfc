# cppformlang finite automata in Dafny

This project models the finite-automaton core of cppformlang and proves it
correct against small mathematical specifications. The core has four layers.

- **`NondeterministicTransitions`** is the transition relation. It is a
  sparse nested map from a state, to a symbol, to a set of target states.
  Adding or removing a triple reports whether anything changed. Removal
  prunes empty inner maps, so no empty map or set is ever stored.
- **`FiniteAutomaton`** adds bookkeeping on top of the relation.
  - It keeps a reference count per state: the number of arc endpoints at
    that state.
  - It keeps a count per symbol: the number of arcs with that label.
  - It keeps the sets of start and final states.
  - A state whose count drops to zero is forgotten, together with its start
    and final marks. `SetState` refuses a state that is not known.
- **The NFA algorithms:**
  - the ε-closure worklist (`Eclose`);
  - acceptance of a word by set simulation;
  - the determinism query;
  - the subset construction (`ToDeterministic`), and `Minimize`, which
    calls it;
  - the in-place algebra `Union`, `Concatenate` and `KleeneStar`. These
    renumber the other automaton by the largest state of the receiver;
  - the regex compiler. `ToPostfix` converts infix text to postfix with an
    operator stack. `FromRegex` then evaluates the postfix text on a stack
    of automata. In that syntax:
    - `+` is concatenation, `|` is alternation and `*` is the postfix star;
    - a backslash makes the next character literal, and a trailing
      backslash is dropped;
    - juxtaposition is not concatenation: the answer is only the top of the
      operand stack.
- **`RecursiveAutomaton`** is a registry of automata ("boxes") under symbol
  labels, plus the label to start in.

## How the model is built

Each layer is built the same way.

- Objects the library mutates are Dafny classes with the same fields.
  - `NondeterministicTransitions` holds a
    `map<State, map<Symbol, set<State>>>`.
  - `FiniteAutomaton` holds the state and symbol count maps, the start and
    final sets, and its transition object.
  - `RecursiveAutomaton` holds a map of boxes and an optional start label.
- Every method is proved against a value-level view.
  - The relation is viewed as a set of `Transition` triples.
  - An automaton is viewed as an `Nfa(trans, starts, finals)` value.
- The semantics is stated on those values:
  - `Closure` (the ε-closure);
  - `Post` (successors on one symbol);
  - `Run` and `Accepts`;
  - the algebra `UnionNfa`, `ConcatNfa` and `StarNfa`;
  - the subset-automaton predicate `IsSubsetAutomaton`.
- The library's properties are proved as lemmas about those values:
  - the language of a union, concatenation, star and subset automaton;
  - that the subset automaton is deterministic;
  - the round trip from a printed expression to its postfix text and its
    automaton;
  - the two determinisation scenarios and the regex scenario from the test
    suite.

Symbols are 32-bit signed integers, and ε is the smallest of them. States
are natural numbers. A C++ `char` is taken as signed when it becomes a
symbol.

## Model

| member | source | states |
|---|---|---|
| Transitions.NondeterministicTransitions.AddTransition | source/cppformlang/finite_automata/nondeterministic_transition_function.cpp:4-7 | Returns true iff the triple was absent. Afterwards the relation is the old one plus the triple and is still compact. Its size grew by one exactly when true. |
| Transitions.NondeterministicTransitions.RemoveTransition | source/cppformlang/finite_automata/nondeterministic_transition_function.cpp:9-33 | Returns true iff the triple was present. Afterwards the relation is the old one minus that triple, so an absent triple changes nothing. Emptied inner maps are pruned, so compactness is kept. The size dropped by one exactly when true. |
| Transitions.InsertedArc | source/cppformlang/finite_automata/nondeterministic_transition_function.cpp:4-7 | Inserting the target into the nested map (creating inner maps as needed) keeps it compact and adds exactly the one triple. |
| Transitions.RemovedArc | source/cppformlang/finite_automata/nondeterministic_transition_function.cpp:23-32 | Erasing the target, then the emptied symbol entry, then the emptied state entry keeps the map compact and removes exactly the one triple. |
| Transitions.NondeterministicTransitions.TransitionsCount | source/cppformlang/finite_automata/nondeterministic_transition_function.cpp:35-43 | The nested summing loop returns the number of stored triples. |
| Transitions.CountAll | source/cppformlang/finite_automata/nondeterministic_transition_function.cpp:37-41 | The outer loop over source states adds up to the number of triples. |
| Transitions.CountSource | source/cppformlang/finite_automata/nondeterministic_transition_function.cpp:38-40 | The inner loop over one state's symbols adds up to the number of arcs leaving that state. |
| Transitions.NondeterministicTransitions.Lookup | source/cppformlang/finite_automata/nondeterministic_transition_function.cpp:45-56 | Returns None iff no arc leaves the state on the symbol. Otherwise it returns exactly the set of successors. |
| Transitions.NondeterministicTransitions.IsDeterministic | source/cppformlang/finite_automata/nondeterministic_transition_function.cpp:58-67 | Returns true iff the relation is functional: no state has two targets on one symbol. |
| Transitions.FunctionalEntries | source/cppformlang/finite_automata/nondeterministic_transition_function.cpp:58-67 | The relation is functional iff every stored target set has at most one element. |
| Transitions.NondeterministicTransitions.ForeachTransition | include/cppformlang/finite_automata/nondeterministic_transitions.h:27-43 | Lists every stored triple exactly once and no other triple. The number of visits equals the number of triples. |
| Transitions.VisitAll | include/cppformlang/finite_automata/nondeterministic_transitions.h:27-36 | The triple loop visits, without repetition, exactly the triples of the nested map. |
| Automaton.FiniteAutomaton.AddTransition | source/cppformlang/finite_automata/finite_automation.cpp:5-13 | Returns true iff the arc was new. The arc is then present and the marks are unchanged. A new arc adds one to the count of each endpoint (two for a self-loop) and one to its label's count. An old arc changes no count. The count invariant is kept. |
| Automaton.FiniteAutomaton.RemoveTransition | source/cppformlang/finite_automata/finite_automation.cpp:15-33 | Returns true iff the arc was present, and the arc is then gone. A state whose count reached zero is forgotten and loses its start and final marks. Other states keep their marks. An absent arc changes no count. The count invariant is kept. |
| Automaton.CountsStatesInsert | source/cppformlang/finite_automata/finite_automation.cpp:9-10 | Bumping both endpoint counts of a new arc keeps every state count equal to the number of arc endpoints at that state. |
| Automaton.CountsStatesRemove | source/cppformlang/finite_automata/finite_automation.cpp:19-28 | Both endpoints of a stored arc have a positive count. Decrementing them, and erasing a count that reaches zero, keeps the state counts exact for the remaining arcs. |
| Automaton.DegreePositive | source/cppformlang/finite_automata/finite_automation.cpp:19-28 | A state is an arc endpoint exactly when its endpoint count is positive. So the known states are exactly the endpoints. |
| Automaton.CountsSymbolsInsert | source/cppformlang/finite_automata/finite_automation.cpp:11 | Bumping the label count of a new arc keeps every symbol count equal to the number of arcs with that label. |
| Automaton.CountsSymbolsRemove | source/cppformlang/finite_automata/finite_automation.cpp:29-31 | The label of a stored arc has a positive count. Decrementing it and erasing it at zero keeps the symbol counts exact. |
| Automaton.AcquireArc | source/cppformlang/finite_automata/finite_automation.cpp:9-12 | For a new arc, both endpoint counts and the label count gain one, and the counts stay exact for the enlarged arc set. |
| Automaton.ReleaseEnd | source/cppformlang/finite_automata/finite_automation.cpp:19-28 | One endpoint loses one from its count. At zero the state is erased together with its start and final marks. |
| Automaton.ReleaseArc | source/cppformlang/finite_automata/finite_automation.cpp:19-31 | For a stored arc, both endpoints and the label lose one. States whose count reaches zero lose their marks, and the counts stay exact for the smaller arc set. |
| Automaton.DecrementWritten | source/cppformlang/finite_automata/finite_automation.cpp:29-31 | The symbol decrement as written: the entry is erased once the old count is at most 3, that is, once the new one is at most 2. |
| Automaton.SymbolForgotten | source/cppformlang/finite_automata/finite_automation.cpp:29-31 | For the arcs 1 -7-> 2 and 2 -7-> 3, removing the first arc by the written rule forgets symbol 7 although 2 -7-> 3 remains. The `== 0` rule keeps it with count 1. |
| Automaton.FiniteAutomaton.SetState | source/cppformlang/finite_automata/finite_automation.cpp:47-63 | Returns true iff the state is known. An unknown state changes nothing. Otherwise its start and final membership become exactly the two flags, and nothing else changes. |
| Automaton.FiniteAutomaton.SetStartState | source/cppformlang/finite_automata/finite_automation.cpp:47-56 | The start-flag half of `SetState`: only a known state is marked or unmarked, and the final marks and counts are unchanged. |
| Automaton.FiniteAutomaton.SetFinalState | source/cppformlang/finite_automata/finite_automation.cpp:47-51 | The final-flag half of `SetState`, with the same known-state check. |
| Automaton.FiniteAutomaton.IsStateStart | source/cppformlang/finite_automata/finite_automation.cpp:65-67 | True iff the state is a start state. A start state is always a known state. |
| Automaton.FiniteAutomaton.IsStateFinal | source/cppformlang/finite_automata/finite_automation.cpp:69-71 | True iff the state is a final state. A final state is always a known state. |
| Automaton.FiniteAutomaton.StateCount | source/cppformlang/finite_automata/finite_automation.cpp:35 | The number of known states, which is the number of arc endpoints. |
| Automaton.FiniteAutomaton.StartStateCount | source/cppformlang/finite_automata/finite_automation.cpp:36-38 | The number of start states, never more than the number of known states. |
| Automaton.FiniteAutomaton.FinalStateCount | source/cppformlang/finite_automata/finite_automation.cpp:39-41 | The number of final states, never more than the number of known states. |
| Automaton.FiniteAutomaton.SymbolCount | source/cppformlang/finite_automata/finite_automation.cpp:42 | The number of distinct arc labels. |
| Automaton.FiniteAutomaton.TransitionCount | source/cppformlang/finite_automata/finite_automation.cpp:43-45 | The number of arcs. |
| Automaton.FiniteAutomaton.Lookup | include/cppformlang/finite_automata/finite_automation.h:83-85 | The successors of a state on a symbol, or None when there are none. This is exactly the relation's lookup. |
| Automaton.FiniteAutomaton.ForeachState | include/cppformlang/finite_automata/finite_automation.h:51-56 | Lists each known state (each state with a positive count) exactly once. |
| Automaton.FiniteAutomaton.ForeachStartState | include/cppformlang/finite_automata/finite_automation.h:57-62 | Lists each start state exactly once. |
| Automaton.FiniteAutomaton.ForeachFinalState | include/cppformlang/finite_automata/finite_automation.h:64-69 | Lists each final state exactly once. |
| Automaton.FiniteAutomaton.ForeachSymbol | include/cppformlang/finite_automata/finite_automation.h:71-76 | Lists each arc label exactly once. |
| Automaton.FiniteAutomaton.ForeachTransition | include/cppformlang/finite_automata/finite_automation.h:78-81 | Lists each arc exactly once. |
| Language.Closure | source/cppformlang/finite_automata/nondeterministic_finite_automaton.cpp:20-37 | The ε-closure contains its seed, is closed under ε-arcs, and holds nothing but the seed and arc targets. |
| Language.ClosureLeast | source/cppformlang/finite_automata/nondeterministic_finite_automaton.cpp:20-37 | The ε-closure lies inside every ε-closed superset of the seed, so it holds only states reachable by ε-paths. |
| Engine.Eclose | source/cppformlang/finite_automata/nondeterministic_finite_automaton.cpp:20-37 | The visited-set worklist returns exactly the ε-closure of the state. Each state is pushed at most once, which bounds the loop. |
| Engine.GetNextStates | source/cppformlang/finite_automata/nondeterministic_finite_automaton.cpp:120-129 | Returns exactly the successors of the current set on the symbol. |
| Engine.CloseAll | source/cppformlang/finite_automata/nondeterministic_finite_automaton.cpp:100-104 | The union of the closures of the states of a set is the closure of the set. |
| Engine.Accepts | source/cppformlang/finite_automata/nondeterministic_finite_automaton.cpp:99-118 | Returns true iff the automaton accepts the word. Acceptance means ε entries are skipped, the run starts from the closure of all start states and takes ε-closed successors, and it ends meeting the final states. The automaton is not modified. |
| Language.AcceptsEmpty | source/cppformlang/finite_automata/nondeterministic_finite_automaton.cpp:99-118 | The empty word is accepted iff the closure of the start states meets the final states. |
| Language.AcceptsSkipsEpsilon | source/cppformlang/finite_automata/nondeterministic_finite_automaton.cpp:106-108 | An ε entry anywhere in the word does not change acceptance. |
| Engine.IsAlone | source/cppformlang/finite_automata/nondeterministic_finite_automaton.cpp:17 | True iff the state's ε-closure has at most one element. |
| Engine.AllAlone | source/cppformlang/finite_automata/nondeterministic_finite_automaton.cpp:16-17 | True iff every listed state's ε-closure has at most one element. |
| Engine.IsDeterministic | source/cppformlang/finite_automata/nondeterministic_finite_automaton.cpp:12-18 | True iff there is at most one start state, the relation is functional, and every known state's ε-closure has at most one element. |
| Language.DeterministicReach | source/cppformlang/finite_automata/nondeterministic_finite_automaton.cpp:12-18 | A deterministic automaton occupies at most one state after any word. |
| Determinize.ToDeterministic | source/cppformlang/finite_automata/nondeterministic_finite_automaton.cpp:45-98 | With no start state the result is the empty automaton. Otherwise it is a fresh subset automaton of the input: numbered non-empty sets of states, with 1 for the closure of the starts, and arcs that are exactly the ε-closed successors on real symbols. State 1 is the start once it is known, and a known state is final iff its set meets the final states. |
| Determinize.Start | source/cppformlang/finite_automata/nondeterministic_finite_automaton.cpp:51-59 | Numbers the closure of all start states 1 and queues it. This establishes the worklist invariant. |
| Determinize.Number | source/cppformlang/finite_automata/nondeterministic_finite_automaton.cpp:82-89 | A set already met keeps its number. A new set gets the next free number, is recorded under it and is queued. Numbers stay distinct per set. |
| Determinize.ExpandSymbol | source/cppformlang/finite_automata/nondeterministic_finite_automaton.cpp:64-93 | For one real symbol, the closure of the successors is computed afresh. If non-empty it is numbered, an arc is drawn to it, and the target is marked final when the set meets the finals. ε and empty successor sets draw nothing. The worklist invariant is kept. |
| Determinize.Draw | source/cppformlang/finite_automata/nondeterministic_finite_automaton.cpp:90-93 | Draws the arc and marks its target final when asked, and nothing else changes. |
| Determinize.Expand | source/cppformlang/finite_automata/nondeterministic_finite_automaton.cpp:64-94 | After all symbols, the popped number has an arc for every real symbol with a non-empty successor set. |
| Determinize.ExploreStep | source/cppformlang/finite_automata/nondeterministic_finite_automaton.cpp:61-95 | One popped entry keeps the invariant. Either a new set was numbered, or the worklist got shorter, which bounds the loop by the subsets of the known states. |
| Determinize.Explore | source/cppformlang/finite_automata/nondeterministic_finite_automaton.cpp:61-95 | When the worklist is empty, every numbered set has all of its arcs. |
| Determinize.MarkSeed | source/cppformlang/finite_automata/nondeterministic_finite_automaton.cpp:96 | Marks state 1 as the start state, and as final when its set meets the final states. Both marks apply only if state 1 is known. |
| Determinize.Construct | source/cppformlang/finite_automata/nondeterministic_finite_automaton.cpp:51-97 | From a non-empty set of start states, builds a fresh automaton that is a subset automaton of the input. |
| Determinize.Minimize | source/cppformlang/finite_automata/nondeterministic_finite_automaton.cpp:131-155 | Gives the same guarantees as `ToDeterministic`, since it is that construction. |
| SubsetConstruction.SubsetRun | source/cppformlang/finite_automata/nondeterministic_finite_automaton.cpp:61-95 | From a numbered state, the subset automaton reads a word into the number of the set the input reaches, or into nothing when that set is empty. |
| SubsetConstruction.SubsetAccepts | source/cppformlang/finite_automata/nondeterministic_finite_automaton.cpp:45-98 | A subset automaton accepts a word iff state 1 is known and the input accepts the word. |
| SubsetConstruction.SubsetDeterministic | source/cppformlang/finite_automata/nondeterministic_finite_automaton.cpp:45-98 | A subset automaton is deterministic. |
| SubsetConstruction.SeedKnown | source/cppformlang/finite_automata/nondeterministic_finite_automaton.cpp:96 | State 1 is known, and so can be made the start state, iff some real symbol leads out of the seed. |
| Matching.DeterminizeKeeps | source/cppformlang/finite_automata/nondeterministic_finite_automaton.cpp:45-98 | A subset automaton accepts every accepted word that begins with a real symbol. |
| Combine.LargestVisited | source/cppformlang/finite_automata/nondeterministic_finite_automaton.cpp:159-163 | The maximum loop returns a bound of every listed state that is itself listed, or 0. |
| Combine.MaxState | source/cppformlang/finite_automata/nondeterministic_finite_automaton.cpp:158-163 | Returns the largest known state, or 0 when there is none. |
| Combine.AddShifted | source/cppformlang/finite_automata/nondeterministic_finite_automaton.cpp:165-167 | Adds every listed arc renumbered by the offset, and nothing else. |
| Combine.InsertShifted | source/cppformlang/finite_automata/nondeterministic_finite_automaton.cpp:169-172 | Inserts every listed state renumbered by the offset. |
| Combine.BridgeFinalsTo | source/cppformlang/finite_automata/nondeterministic_finite_automaton.cpp:187-190 | Adds an ε-arc from every final state to every listed start state, renumbered. |
| Combine.Remark | source/cppformlang/finite_automata/nondeterministic_finite_automaton.cpp:169-172 | Replaces the start and final sets by the given sets of known states, leaving the arcs and the counts as they are. |
| Combine.AddEpsilonInto | source/cppformlang/finite_automata/nondeterministic_finite_automaton.cpp:189 | Adds an ε-arc from every listed state into one target. |
| Combine.AddEpsilonFrom | source/cppformlang/finite_automata/nondeterministic_finite_automaton.cpp:199 | Adds an ε-arc from one source to every listed state. |
| Combine.Union | source/cppformlang/finite_automata/nondeterministic_finite_automaton.cpp:157-173 | The receiver becomes the union automaton. It keeps its own arcs, starts and finals and gains those of the other automaton renumbered by the receiver's largest state. The other automaton is not modified. |
| Algebra.AcceptsShift | source/cppformlang/finite_automata/nondeterministic_finite_automaton.cpp:165-172 | Renumbering every state by the same offset does not change the language. |
| Algebra.AcceptsUnion | source/cppformlang/finite_automata/nondeterministic_finite_automaton.cpp:157-173 | When both automata are well formed and the other has no state 0, the union accepts exactly the words either one accepts. |
| Combine.Concatenate | source/cppformlang/finite_automata/nondeterministic_finite_automaton.cpp:175-195 | The receiver gains the other automaton's arcs renumbered and ε-arcs from each of its original finals to each renumbered start. Its finals become exactly the renumbered finals of the other, and its starts are unchanged. |
| Algebra.AcceptsConcat | source/cppformlang/finite_automata/nondeterministic_finite_automaton.cpp:175-195 | If the receiver accepts u and the other accepts v, the concatenation accepts uv. |
| Algebra.JoinClosure | source/cppformlang/finite_automata/nondeterministic_finite_automaton.cpp:187-190 | From the receiver's own states, the ε-closure of the concatenation is the receiver's own closure, joined by the closure of the other's starts exactly when it holds a final state of the receiver. |
| Algebra.JoinRun | source/cppformlang/finite_automata/nondeterministic_finite_automaton.cpp:175-195 | A run of the concatenation from the receiver's states that ends in a final state of the other splits the word into a prefix the receiver reads into a final state and a suffix the other accepts. |
| Algebra.ConcatLanguage | source/cppformlang/finite_automata/nondeterministic_finite_automaton.cpp:175-195 | When both automata are well formed and the other has no state 0, the concatenation accepts a word iff it splits into a word the receiver accepts followed by a word the other accepts. |
| Combine.KleeneStar | source/cppformlang/finite_automata/nondeterministic_finite_automaton.cpp:197-201 | Adds an ε-arc from every final to every start state and makes every start state final. |
| Algebra.AcceptsStar | source/cppformlang/finite_automata/nondeterministic_finite_automaton.cpp:197-201 | When there is a start state, the star automaton accepts every concatenation of accepted words, including the empty one. |
| Algebra.StarKeeps | source/cppformlang/finite_automata/nondeterministic_finite_automaton.cpp:197-201 | Every word accepted before the star is still accepted. |
| Regex.ToPostfix | source/cppformlang/finite_automata/nondeterministic_finite_automaton.cpp:203-247 | The operator-stack loop computes the conversion `Convert`: character by character, followed by the remaining operators, top first. An unmatched `)` gives the error the conversion gives. |
| Regex.PopGroup | source/cppformlang/finite_automata/nondeterministic_finite_automaton.cpp:221-227 | The loop of `)` pops operators to the output down to the nearest `(`, which is dropped. It fails when there is none. |
| Regex.PopConcat | source/cppformlang/finite_automata/nondeterministic_finite_automaton.cpp:231-237 | The loop of `|` moves the `+` operators on top of the stack to the output. |
| Regex.ReverseOf | source/cppformlang/finite_automata/nondeterministic_finite_automaton.cpp:246 | Lists the operators left on the stack, top first. |
| Regex.ConvertShow | source/cppformlang/finite_automata/nondeterministic_finite_automaton.cpp:203-247 | Converting the fully parenthesised infix text of any expression yields that expression's postfix text. |
| Regex.CloseGroupFails | source/cppformlang/finite_automata/nondeterministic_finite_automaton.cpp:221-227 | Closing a group fails iff no `(` is pending. |
| Regex.UnmatchedClose | source/cppformlang/finite_automata/nondeterministic_finite_automaton.cpp:221-227 | Appending `)` to a text makes its conversion fail iff no `(` is pending after the text. |
| Compiler.FromChar | source/cppformlang/finite_automata/nondeterministic_finite_automaton.cpp:287-291 | The character constructor builds a fresh automaton with the arc 1 -c-> 2, start state 1 and final state 2. |
| Compiler.EvalStep | source/cppformlang/finite_automata/nondeterministic_finite_automaton.cpp:253-279 | One postfix character on the operand objects does what `Apply` does on values. It reports failure exactly when an operator is short of operands. |
| Compiler.StarTop | source/cppformlang/finite_automata/nondeterministic_finite_automaton.cpp:263-265 | `*` stars the top operand in place. |
| Compiler.JoinTop | source/cppformlang/finite_automata/nondeterministic_finite_automaton.cpp:266-275 | `+` or `|` pops the top operand and concatenates it to, or unites it with, the operand below. |
| Compiler.TopOrEmpty | source/cppformlang/finite_automata/nondeterministic_finite_automaton.cpp:281-284 | The answer is the top operand, or a new empty automaton when the stack is empty. |
| Compiler.FromRegex | source/cppformlang/finite_automata/nondeterministic_finite_automaton.cpp:249-285 | Fails iff the translation of the text fails, and with the same message. Otherwise it returns a fresh automaton whose value is the translation. |
| Compiler.TranslateShow | source/cppformlang/finite_automata/nondeterministic_finite_automaton.cpp:249-285 | The automaton built from an expression's printed text is the automaton of the expression: a union for `|`, a concatenation for `+`, a star for `*`. |
| Compiler.TranslateEmpty | source/cppformlang/finite_automata/nondeterministic_finite_automaton.cpp:281-283 | The empty regex gives the empty automaton. |
| Matching.CompileComplete | source/cppformlang/finite_automata/nondeterministic_finite_automaton.cpp:249-291 | The automaton of an expression accepts every word the expression denotes. |
| Matching.AltExact | source/cppformlang/finite_automata/nondeterministic_finite_automaton.cpp:271-275 | The automaton of an alternative accepts exactly the words of either side. |
| Matching.CatExact | source/cppformlang/finite_automata/nondeterministic_finite_automaton.cpp:266-270 | The automaton of a concatenation accepts exactly the words that split into a word of the left automaton followed by a word of the right one. |
| Matching.StarComplete | source/cppformlang/finite_automata/nondeterministic_finite_automaton.cpp:263-265 | The automaton of a star accepts every concatenation of words of the inner automaton. |
| Matching.ExampleConverts | test/source/cppformlang/finite_automata/regexable.cpp:9-10 | `a|b+c*` converts to the postfix text `abc*+|`. |
| Matching.ExampleAccepts | test/source/cppformlang/finite_automata/regexable.cpp:11-18 | The automaton of `a|b+c*` accepts `a`, `b`, `bc` and `bcc`. |
| Matching.ExampleRounds | test/source/cppformlang/finite_automata/regexable.cpp:11-21 | After the first round of determinisation the automaton accepts `a`, `b`, `bc` and `bcc`, and after a second round it still does. |
| Scenarios.BuildFirst | test/source/cppformlang/finite_automata/nondeterministic_finite_automaton.cpp:9-20 | Builds the first test automaton: 10 -0-> 10, 10 -0-> 11, 10 -1-> 10 and 11 -1-> 12, start 10, final 11. |
| Scenarios.FirstDfaArcs | test/source/cppformlang/finite_automata/nondeterministic_finite_automaton.cpp:8-25 | Every subset automaton of the first test automaton has exactly six arcs, over the sets {10}, {10, 11} and {10, 12}. |
| Scenarios.FirstDeterminized | test/source/cppformlang/finite_automata/nondeterministic_finite_automaton.cpp:8-25 | Every subset automaton of the first test automaton is deterministic with 3 states and 6 arcs. |
| Scenarios.DeterminizeFirst | test/source/cppformlang/finite_automata/nondeterministic_finite_automaton.cpp:8-25 | Running the construction on the first test automaton yields a deterministic automaton with 3 states and 6 arcs. |
| Scenarios.BuildSecond | test/source/cppformlang/finite_automata/nondeterministic_finite_automaton.cpp:28-41 | Builds the second test automaton. The repeated arc 10 -1-> 10 is added once. |
| Scenarios.SecondDfaArcs | test/source/cppformlang/finite_automata/nondeterministic_finite_automaton.cpp:27-46 | Every subset automaton of the second test automaton has exactly four arcs, over the sets {10} and {10, 11}. |
| Scenarios.SecondDeterminized | test/source/cppformlang/finite_automata/nondeterministic_finite_automaton.cpp:27-46 | Every subset automaton of the second test automaton is deterministic with 2 states and 4 arcs. |
| Scenarios.DeterminizeSecond | test/source/cppformlang/finite_automata/nondeterministic_finite_automaton.cpp:27-46 | Running the construction on the second test automaton yields a deterministic automaton with 2 states and 4 arcs. |
| Recursive.RecursiveAutomaton.GetBox | source/cppformlang/finite_automata/recursive_automation.cpp:14-19 | Returns None iff no box is registered under the label. Otherwise it returns that box. |
| Recursive.RecursiveAutomaton.AddBox | source/cppformlang/finite_automata/recursive_automation.cpp:5-12 | Returns true iff a box was already registered under the label. Afterwards the label holds the given automaton, and every other label and the start label are unchanged. |
| Recursive.RecursiveAutomaton.SetInitLabel | source/cppformlang/finite_automata/recursive_automation.cpp:21 | Sets the start label without checking that a box is registered under it, and leaves the boxes unchanged. |
| DeterminizeAsWritten.CarriedNext | source/cppformlang/finite_automata/nondeterministic_finite_automaton.cpp:64-78 | The set drawn as written holds the correct successor closure and everything earlier symbols left in the shared buffer. |
| DeterminizeAsWritten.CarriedNextDiffers | source/cppformlang/finite_automata/nondeterministic_finite_automaton.cpp:54 | From {10} over 10 -0-> 11 and 10 -1-> 12, symbol 1 draws {11, 12} as written instead of {12}. |
| DeterminizeAsWritten.RecordAsWritten | source/cppformlang/finite_automata/nondeterministic_finite_automaton.cpp:86 | As written, a new set is recorded under the number being expanded. |
| DeterminizeAsWritten.RecordCollides | source/cppformlang/finite_automata/nondeterministic_finite_automaton.cpp:83-89 | Recorded that way, the new set shares its number with the set being expanded. |
| DeterminizeAsWritten.RecordCollidesOnFirst | source/cppformlang/finite_automata/nondeterministic_finite_automaton.cpp:86 | In the first test, {10} and {10, 11} both end up under number 1. |
| DeterminizeAsWritten.SeedAsWritten | source/cppformlang/finite_automata/nondeterministic_finite_automaton.cpp:53 | As written, the seed is the closure of one start state only, a part of the intended seed. |
| DeterminizeAsWritten.SeedMissesStart | source/cppformlang/finite_automata/nondeterministic_finite_automaton.cpp:53 | An automaton with two starts accepts both 0 and 1. From either one-start seed, one of the two words reaches no final state. |
| DeterminizeAsWritten.FinishAsWritten | source/cppformlang/finite_automata/nondeterministic_finite_automaton.cpp:96 | As written, only the start mark of state 1 is set, and the final marks stay as the arcs left them. |
| DeterminizeAsWritten.SeedFinalityLost | source/cppformlang/finite_automata/nondeterministic_finite_automaton.cpp:91-96 | When the seed meets the finals and no arc re-enters state 1, the input accepts the empty word and the automaton finished as written rejects it. |
| DeterminizeAsWritten.SeedNotReentered | source/cppformlang/finite_automata/nondeterministic_finite_automaton.cpp:82-90 | When the seed holds a state that no arc enters, no arc of the subset automaton re-enters state 1, since every set an arc leads to consists of arc targets. |
| DeterminizeAsWritten.SeedFinalityLostOnArc | source/cppformlang/finite_automata/nondeterministic_finite_automaton.cpp:91-96 | For start and final state 10 with the single arc 10 -0-> 11, the input accepts the empty word and the automaton finished as written rejects it. |
| DeterminizeAsWritten.AlphabetAsWritten | source/cppformlang/finite_automata/nondeterministic_finite_automaton.cpp:64 | As written, the expanded symbols are all labels, ε included whenever an ε-arc exists. |
| DeterminizeAsWritten.EpsilonExpanded | source/cppformlang/finite_automata/nondeterministic_finite_automaton.cpp:64-81 | Over the arc 10 -ε-> 11, expanding the seed {10, 11} on ε as written yields the different non-empty set {11}, so an ε-arc is drawn. |
| DeterminizeAsWritten.EpsilonArcNondeterministic | source/cppformlang/finite_automata/nondeterministic_finite_automaton.cpp:12-18 | An automaton with an ε-arc between two distinct states is not deterministic. |

## Left out

- Iteration order of the hash containers. Each `Foreach*` member returns a
  duplicate-free sequence of exactly the right elements, in no particular
  order. The numbers of the subset automaton depend on stack and hash order,
  so the scenarios fix them only up to renaming. `include/utils/hash.h` is
  not part of this model: sets of states are compared by value.
- Integer widths. States and counts are natural numbers. The 32-bit
  wrap-around of the counts and of the renumbering in `Union` and
  `Concatenate` is not modelled.
- Aliasing. `Union` and `Concatenate` require the other automaton to be a
  different object. `a.Union(a)` would insert into the containers it is
  iterating over.
- Combine.KleeneStar: only the inclusion of the star language is proved.
  The construction adds no fresh start state and can accept more, for
  example words that leave the automaton in a start state partway through.
- Combine.Union, Combine.Concatenate: the exact-language lemmas
  `Algebra.AcceptsUnion` and `Algebra.ConcatLanguage` need the other
  automaton to have no state 0 and every start and final state to be
  known. Automata built by the character constructor and by the algebra
  have that shape.
- Determinize.ToDeterministic: as in the library, state 1 becomes the start
  state only when it is known, that is, when some arc leaves the seed.
  Otherwise the result has no start state and accepts nothing, even when
  the seed is final. `SubsetConstruction.SubsetAccepts` states this
  condition.
- Determinize.ToDeterministic models the corrected construction (see
  Findings):
  - it uses the closure of all start states;
  - it computes a fresh successor set per symbol;
  - it records a new set under its new number;
  - it expands real symbols only;
  - it marks state 1 final when its set meets the final states.

  The library also grows the successor set while iterating over it
  (`nondeterministic_finite_automaton.cpp:71-73`). The model takes the
  closure of the successors at once.
- The commented-out minimisation pipeline is dead code.
  `FiniteAutomaton::IsAcyclic` is a stub that returns `false`.
- Malformed regexes:
  - an unmatched `)` is undefined behaviour in the library;
  - so is an operator with too few operands.

  Both are reported here as error results, "unmatched )" and "missing
  operand".
- Compile-level inconsistencies of the headers have no model:
  - the header name;
  - `Size()` where `TransitionsCount()` is meant;
  - `FiniteAutomaton` used as a template;
  - `FiniteAutomaton::IsDeterministic` is not declared.

  The model uses the evident meaning: the relation's count and the
  relation's determinism test.
- The tests call `SetStartState`, `SetFinalState` and `StatesCount`. These
  are modelled as single-flag versions of `SetState`, with the same
  known-state check, and as `StateCount`.
- Recursive.RecursiveAutomaton: boxes are held by value. The uninitialised
  start label is modelled as `None` until it is first set.
- `source/greeter.cpp` and `standalone/source/main.cpp` are not part of this
  model: they are a greeting formatter and a command-line front end.

## Findings

| source | as written | input that shows it | evidently intended | confidence | as-written member | corrected member |
|---|---|---|---|---|---|---|
| source/cppformlang/finite_automata/finite_automation.cpp:29 | a symbol's entry is erased once its decremented count is at most 2 | arcs 1 -7-> 2 and 2 -7-> 3, then remove 1 -7-> 2: symbol 7 is forgotten while 2 -7-> 3 remains | erase at 0, like the state rule at lines 19 and 24 | not executed | Automaton.SymbolForgotten | Automaton.CountsSymbolsRemove |
| source/cppformlang/finite_automata/nondeterministic_finite_automaton.cpp:54 | the successor buffer `next` is declared once and never cleared, so a set drawn for one symbol keeps the states drawn for earlier symbols | from {10} over 10 -0-> 11 and 10 -1-> 12, with symbol 0 expanded before symbol 1 (the order of `symbols_` is a hash order) and the other steps corrected: symbol 1 draws {11, 12} instead of {12} | a fresh successor set for every symbol | not executed | DeterminizeAsWritten.CarriedNextDiffers | Determinize.ExpandSymbol |
| source/cppformlang/finite_automata/nondeterministic_finite_automaton.cpp:86 | a new set is recorded under the number being expanded | first test automaton: {10} is number 1, and {10, 11} is recorded under 1 too | record it under the new number | not executed | DeterminizeAsWritten.RecordCollidesOnFirst | Determinize.Number |
| source/cppformlang/finite_automata/nondeterministic_finite_automaton.cpp:53 | the seed is the closure of one start state only, the first in hash order | starts 10 and 20, arcs 10 -0-> 11 and 20 -1-> 21, finals 11 and 21, with the other steps corrected: whichever start comes first, one of the words 0 and 1 is lost | the closure of all start states | not executed | DeterminizeAsWritten.SeedMissesStart | Determinize.Start |
| source/cppformlang/finite_automata/nondeterministic_finite_automaton.cpp:96 | line 96 sets only the start mark of state 1, so state 1 is final only when an arc drawn into it carries `is_final` | start and final state 10 and the single arc 10 -0-> 11: with the other steps corrected no arc re-enters 1, so the empty word is lost; with them as written the stale buffer draws 2 -0-> 1 without `is_final`, with the same loss | mark 1 final when its set meets the final states | not executed | DeterminizeAsWritten.SeedFinalityLostOnArc | Determinize.MarkSeed |
| source/cppformlang/finite_automata/nondeterministic_finite_automaton.cpp:64 | ε is expanded like any other label | the single arc 10 -ε-> 11: an ε-arc is drawn from 1, so the result is not deterministic | expand real symbols only | not executed | DeterminizeAsWritten.EpsilonExpanded | Determinize.ExpandSymbol |
