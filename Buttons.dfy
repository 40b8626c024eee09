/**
 * The rounded canvas button: `make_button` in the day-2 and day-3 scripts,
 * `topbar_btn` in day 3 and the `RoundedButton` class of the final app. It is
 * drawn in its base colour, redrawn in the darkened colour while the pointer
 * is over it, redrawn in the base colour when the pointer leaves, and a click
 * runs its command. The shape itself (arcs, rectangles, centred white label)
 * is not modelled: only the colour it is drawn in.
 */
module Buttons {
  import opened HexColor

  class HoverButton {
    /** The base colour, `self.color`. */
    const color: string
    /** The darkened colour, computed once from `color`. */
    const hoverColor: string
    /** Whether a command is bound (`RoundedButton` accepts `command=None`). */
    const hasCommand: bool
    /** The amount taken off each channel on hover (25 in the dialogs script, 20 elsewhere). */
    const amount: nat
    /** The colour the shape is currently drawn in. */
    var drawn: string
    /** How many times the command has run. */
    var runs: nat

    /** The button is only ever drawn in one of its two colours. */
    ghost predicate Valid()
      reads this
    {
      WellFormed(color) && hoverColor == Darken(color, amount) && (drawn == color || drawn == hoverColor)
    }

    /** Construction draws the base colour once and fixes the hover colour. */
    constructor (color: string, amount: nat, hasCommand: bool)
      requires WellFormed(color)
      ensures Valid()
      ensures this.color == color && this.amount == amount && this.hasCommand == hasCommand
      ensures hoverColor == Darken(color, amount) && drawn == color && runs == 0
    {
      this.color := color;
      this.amount := amount;
      this.hoverColor := Darken(color, amount);
      this.hasCommand := hasCommand;
      drawn := color;
      runs := 0;
    }

    /** `<Enter>`: redraw in the darkened colour. */
    method Enter()
      requires Valid()
      modifies this`drawn
      ensures Valid() && drawn == Darken(color, amount)
    {
      drawn := hoverColor;
    }

    /** `<Leave>`: redraw in the base colour, exactly as given. */
    method Leave()
      requires Valid()
      modifies this`drawn
      ensures Valid() && drawn == color
    {
      drawn := color;
    }

    /** `<Button-1>`: run the command when there is one, otherwise nothing. */
    method Click()
      requires Valid()
      modifies this`runs
      ensures Valid() && runs == old(runs) + (if hasCommand then 1 else 0)
    {
      if hasCommand {
        runs := runs + 1;
      }
    }
  }

  /** Pointer in, pointer out: the button is drawn in exactly its base colour again, and the command did not run. */
  method EnterThenLeave(b: HoverButton)
    requires b.Valid()
    modifies b
    ensures b.Valid() && b.drawn == b.color && b.runs == old(b.runs)
  {
    b.Enter();
    assert b.drawn == b.hoverColor;
    b.Leave();
  }
}
