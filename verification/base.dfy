/** Shared vocabulary of the finite-automaton library: states, symbols,
    transitions, and the relational views of a set of transitions that the
    specifications of every other module are written in. */
module Base {

  /** States are unsigned identifiers in the library; the model uses
      unbounded naturals, so renumbering by an offset never wraps. */
  type State = nat

  /** Symbols are 32-bit signed integers. */
  type Symbol = x: int | -0x8000_0000 <= x < 0x8000_0000

  /** The reserved symbol of the empty word: the least 32-bit integer. */
  const Epsilon: Symbol := -0x8000_0000

  /** One arc of a transition relation. */
  datatype Transition = Transition(from: State, sym: Symbol, to: State)

  datatype Option<+T> = None | Some(value: T)

  datatype Result<+T, +E> = Ok(value: T) | Err(error: E)

  /** The states reached from some member of `S` by one arc labelled `a`. */
  function Post(T: set<Transition>, S: set<State>, a: Symbol): set<State>
  {
    set t | t in T && t.from in S && t.sym == a :: t.to
  }

  function Sources(T: set<Transition>): set<State>
  {
    set t | t in T :: t.from
  }

  function Targets(T: set<Transition>): set<State>
  {
    set t | t in T :: t.to
  }

  /** The states an automaton knows: those that are an endpoint of an arc. */
  function Endpoints(T: set<Transition>): set<State>
  {
    Sources(T) + Targets(T)
  }

  /** The symbols that label at least one arc. */
  function Labels(T: set<Transition>): set<Symbol>
  {
    set t | t in T :: t.sym
  }

  function Outgoing(T: set<Transition>, s: State): set<Transition>
  {
    set t | t in T && t.from == s
  }

  function Incoming(T: set<Transition>, s: State): set<Transition>
  {
    set t | t in T && t.to == s
  }

  function Labelled(T: set<Transition>, b: Symbol): set<Transition>
  {
    set t | t in T && t.sym == b
  }

  /** The number of arc endpoints at `s`; a self-loop counts twice. */
  function Degree(T: set<Transition>, s: State): nat
  {
    |Outgoing(T, s)| + |Incoming(T, s)|
  }

  /** True iff no two arcs share a source and a label but differ in target. */
  ghost predicate Functional(T: set<Transition>)
  {
    forall t, u :: t in T && u in T && t.from == u.from && t.sym == u.sym ==> t.to == u.to
  }
}
