/** The interrupt line of src/kvm/interrupt.h. */
module Interrupts {
  /** The level, and the eventfd's counter: edges that the interrupt controller has not taken yet. */
  datatype Line = Line(level: bool, signals: nat) {
    /** set_level(update): only a rising edge writes the eventfd. */
    function Set(update: bool): Line {
      Line(update, if update && !level then signals + 1 else signals)
    }
  }

  class Interrupt {
    var state: bool
    var signals: nat

    constructor ()
      ensures Now() == Line(false, 0)
    {
      state, signals := false, 0;
    }

    ghost function Now(): Line
      reads this
    {
      Line(state, signals)
    }

    method SetLevel(update: bool)
      modifies this
      ensures Now() == old(Now()).Set(update)
    {
      if state == update {
        return;
      }
      if update {
        signals := signals + 1;
      }
      state := update;
    }

    method Level() returns (level: bool)
      ensures level == Now().level
    {
      level := state;
    }
  }
}
