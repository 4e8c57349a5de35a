// One square of the Minesweeper grid (class Cell of main.py), without its
// button widget. The widget's visible state is kept as two abstract fields:
// `disabled` (the button no longer accepts clicks) and `mark` (the picture a
// lost game leaves on the square).

module Cells {

  /** What a square holds: an adjacency count, a mine ('B'), or the mine that
      was hit ('GG'). */
  datatype Value = Count(n: nat) | Mine | Detonated

  /** The picture the loss sweep may put on a square; any later change of the
      button's image removes it. */
  datatype LossMark = Unmarked | ExposedMine | FalseFlag

  datatype Cell = Cell(value: Value, revealed: bool, flagged: bool, disabled: bool, mark: LossMark)

  /** Both kinds of mine: one still waiting and the one that went off. */
  predicate IsMined(v: Value) {
    v.Mine? || v.Detonated?
  }

  /** A square as `Cell.__init__` leaves it: count 0, hidden, unflagged,
      clickable, showing the plain tile. */
  function NewCell(): (c: Cell)
    ensures c.value == Count(0) && !c.revealed && !c.flagged && !c.disabled && c.mark == Unmarked
  {
    Cell(Count(0), false, false, false, Unmarked)
  }

  /** `Cell.reveal`: the square is shown and its button is disabled. */
  function Reveal(c: Cell): (r: Cell)
    ensures r.revealed && r.disabled && r.mark == Unmarked
    ensures r.value == c.value && r.flagged == c.flagged
  {
    c.(revealed := true, disabled := true, mark := Unmarked)
  }

  /** `Cell.flag`: the flag is put on or taken off; the button shows the flag
      or the plain tile. */
  function ToggleFlag(c: Cell): (r: Cell)
    ensures r.flagged == !c.flagged && r.mark == Unmarked
    ensures r.value == c.value && r.revealed == c.revealed && r.disabled == c.disabled
  {
    c.(flagged := !c.flagged, mark := Unmarked)
  }

  /** `Cell.reset`: back to a fresh square, whatever it held. */
  function Reset(c: Cell): (r: Cell)
    ensures r == NewCell()
  {
    NewCell()
  }

  /** Flagging twice gives the square back, except for a loss picture, which
      the first image change already removed. */
  lemma ToggleFlagTwice(c: Cell)
    ensures ToggleFlag(ToggleFlag(c)) == c.(mark := Unmarked)
    ensures c.mark == Unmarked ==> ToggleFlag(ToggleFlag(c)) == c
  {
  }

  /** Revealing twice is revealing once. */
  lemma RevealIdempotent(c: Cell)
    ensures Reveal(Reveal(c)) == Reveal(c)
  {
  }
}
