/** The recursive automaton: a registry of automata ("boxes") under symbol
    labels, and the label of the box to start in. The boxes are held by
    value, as the library copies an automaton into its registry. */
module Recursive {
  import opened Base
  import opened Language

  class RecursiveAutomaton {
    var boxes: map<Symbol, Nfa>
    /** The label to start in; unset until it is first assigned. */
    var initLabel: Option<Symbol>

    constructor ()
      ensures boxes == map[] && initLabel == None
    {
      boxes := map[];
      initLabel := None;
    }

    /** The box registered under `name`, if any. */
    function GetBox(name: Symbol): (r: Option<Nfa>)
      reads this
      ensures r.None? <==> name !in boxes
      ensures r.Some? ==> r.value == boxes[name]
    {
      if name in boxes then Some(boxes[name]) else None
    }

    /** Registers `dfa` under `name`, replacing any box already there;
        tells whether one was. */
    method AddBox(name: Symbol, dfa: Nfa) returns (replaced: bool)
      modifies this
      ensures replaced <==> old(GetBox(name)).Some?
      ensures GetBox(name) == Some(dfa)
      ensures forall other :: other != name ==> GetBox(other) == old(GetBox(other))
      ensures boxes == old(boxes)[name := dfa] && initLabel == old(initLabel)
    {
      if name in boxes {
        boxes := boxes[name := dfa];
        return true;
      }
      boxes := boxes[name := dfa];
      return false;
    }

    /** Sets the start label; whether a box is registered under it is not
        checked. */
    method SetInitLabel(name: Symbol)
      modifies this
      ensures initLabel == Some(name) && boxes == old(boxes)
    {
      initLabel := Some(name);
    }
  }
}
