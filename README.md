# Minesweeper game engine in Dafny

This project models the game logic of a small Minesweeper program written in
Python with tkinter (`main.py`). The program has two classes. A `Cell` is one
square: it holds a count of neighbouring mines or a mine, and it knows
whether it is revealed and whether it is flagged. A `Board` holds a grid of
cells indexed `[x][y]`, the size and mine count from the presets, and a
reveal/flag mode. The board places mines at random and updates the counts
around each one. Its `press` either toggles a flag or reveals a square. A
revealed mine loses the game: every other square is disabled and the other
mines and wrong flags are shown. A revealed zero square recursively presses
its eight neighbours (the flood reveal).

The model keeps the program's shape:

- `cells.dfy` (module `Cells`): the square as a datatype. `Value` is
  `Count(n) | Mine | Detonated`, standing for the integer, `'B'` and `'GG'`.
  The button widget is reduced to two abstract fields. `disabled` says
  whether the button still accepts clicks. `mark` holds the picture a lost
  game leaves: exposed mine or false flag. `Cell.reveal`, `Cell.flag` and
  `Cell.reset` become functions that return the updated square.
- `grid.dfy` (module `Grids`): the grid as a `seq<seq<Cell>>` and the
  neighbourhood of a square. It defines the adjacency count, the placement
  invariant (`Placed`: the board holds `mines` mines and every other square
  shows the number of mines around it), and counting lemmas.
- `presets.dfy` (module `Presets`): `__get_size` and `__get_num_mines`.
- `press.dfy` (module `Play`): the reveal/flag mode, the loss sweep on one
  square, and `PressOutcome`. `PressOutcome` is the relation between the
  grid before and after one `press`. For the flood it says what is revealed
  without fixing the order: only safe squares, every zero revealed has all
  its neighbours revealed or flagged, and every revealed square is reached
  from the pressed square by a walk over revealed zeros (`RevealOrder`).
  `PressDetermined` proves that this relation allows exactly one result, so
  `Board.Press` computes exactly the flood region. This module also holds
  the lemmas about presses.
- `board.dfy` (module `Minesweeper`): `class Board`. The 2D list
  `self.board` is a `seq<seq<Cell>>` field that the methods reassign, and
  `state` is a `Mode` field. `__add_count`, `__change_state`,
  `__place_mines`, `reset` and `press` are methods with the source's loops
  and recursion. Each method is proved against the functions and relations
  above. `Press` recurses exactly as the source does. Its termination
  measure is the number of hidden squares, because every recursing call
  first reveals a hidden square.

The class invariant `Valid()` is the placement invariant. It counts a
`Detonated` square as a mine, so it holds before and after every press,
including a losing one.

Randomness and the special values are handled like this:

- `random.randint` in `__place_mines` becomes a caller-supplied sequence of
  draws `picks`. Every draw must lie on the board, and the draws must name
  at least `mines` distinct squares. This is the model's counterpart of
  "the random generator eventually hits enough empty squares". Under it the
  source's `while mines > 0` loop is proved to terminate. The loop skips a
  draw that names a mine, as the source does, so it can consume surplus
  draws.
- `int(area * .12)` etc. become the integer floor `area * 12 / 100`.
  `Presets.PresetTable` proves the nine integer values. That the
  floating-point products truncate to the same nine numbers (for example
  480 × 0.21 = 100.8 gives 100) is argued, not proved.

Some behaviour follows the program closely:

- The program has no win detection, no game-state value and no
  configuration error, so neither has the model.
- `reset` keeps the mode, as `Board.reset` does.
- Pressing a disabled square still runs `press`. Only the GUI refuses the
  click.

## Model

| member | source | states |
|---|---|---|
| `Cells.NewCell` | main.py:11-14 | a fresh square holds count 0 and is hidden, unflagged, clickable and unmarked |
| `Cells.Reveal` | main.py:22-31 | revealing shows the square and disables its button; the value and flag are unchanged; the new image removes any loss mark |
| `Cells.ToggleFlag` | main.py:33-39 | flagging flips `flagged` and changes nothing else but the image (the loss mark goes) |
| `Cells.ToggleFlagTwice` | main.py:33-39 | flagging twice restores the square, apart from a loss mark already removed |
| `Cells.RevealIdempotent` | main.py:22-31 | revealing twice is revealing once |
| `Cells.Reset` | main.py:41-45 | a reset square is a fresh square whatever it held |
| `Presets.GetSize` | main.py:121-127 | both dimensions of every preset are positive |
| `Presets.NumMines` | main.py:129-137 | the mine count is the floor of area times 12, 16 or 21 percent: `m*100 <= area*pct < (m+1)*100`, and is at most the area |
| `Presets.PresetTable` | main.py:121-137 | "S"→9×9, "M"→16×16, every other size→16×30; every difficulty other than "E" and "M" has density 21; the nine mine counts, e.g. ("E", "S") gives 9 |
| `Presets.NumMinesMonotone` | main.py:129-137 | a harder difficulty never gives fewer mines |
| `Play.Toggle` | main.py:100-106 | the mode always changes |
| `Play.ToggleTwice` | main.py:100-106 | toggling twice is the identity |
| `Grids.ZeroCount` | main.py:196-197 | a count of 0 holds exactly when no in-bounds neighbour is a mine |
| `Grids.MineNeighboursAfterMine` | main.py:116-118 | a new mine raises the mine count of each of its neighbours by one and of no other square |
| `Grids.PlacedKept` | main.py:163-205 | a change that keeps every mine and every count keeps the placement invariant |
| `Grids.CountSet` | main.py:163-205 | replacing one square changes a count of squares by that square's contribution (hidden squares: termination of the flood) |
| `Grids.CountMono` | main.py:196-205 | revealing squares never increases the number of hidden squares |
| `Minesweeper.PlaceOne` | main.py:85-98 | a mine on a free square followed by `__add_count` keeps every count right and adds exactly one mine |
| `Minesweeper.FreeAfterMine` | main.py:112-119 | a placing draw removes exactly its square from the free squares the remaining draws can name |
| `Minesweeper.PlacingMine` | main.py:112-119 | a placing draw keeps the loop invariant with one mine fewer to place |
| `Minesweeper.PlacingSkip` | main.py:116 | a draw that names a mine keeps the loop invariant unchanged |
| `Minesweeper.PlacingDraw` | main.py:112-114 | while mines remain to be placed a draw is available and lies on the board |
| `Minesweeper.Board.constructor` | main.py:50-75 | the size and mine count are the presets; every square is fresh; the mode is reveal; the placement invariant holds |
| `Minesweeper.Board.IsValidCell` | main.py:82-83 | on a well-shaped board, valid coordinates are exactly the in-bounds ones |
| `Minesweeper.Board.AddCount` | main.py:85-98 | every in-bounds neighbour that shows a count goes up by one; mines and other squares are untouched |
| `Minesweeper.Board.ChangeState` | main.py:100-106 | the mode flips; the grid is untouched |
| `Minesweeper.Board.PlaceMines` | main.py:109-119 | from a grid of zeros: afterwards exactly `mines` squares are mines, every other square shows its mine count, and nothing but values changed |
| `Minesweeper.Board.Reset` | main.py:155-160 | every square hidden, unflagged, enabled and unmarked; placement invariant with `mines` mines; mode unchanged |
| `Minesweeper.Board.LossSweep` | main.py:183-194 | every square is swept: the detonated one skipped, others disabled, false flags and unflagged mines marked |
| `Minesweeper.Board.Press` | main.py:163-205 | the grid after the call is related to the grid before by `PressOutcome`; the placement invariant and the mode are kept; termination by the number of hidden squares |
| `Minesweeper.Board.PressNeighbour` | main.py:198-205 | each recursive call of the flood advances it by one neighbour and never hides a square |
| `Play.PressGuards` | main.py:163-176 | off the board, on a revealed square, and on a flagged square in reveal mode a press changes nothing |
| `Play.PressTwiceReveal` | main.py:163-205 | in reveal mode pressing the same square twice leaves the grid of pressing once |
| `Play.PressTwiceFlag` | main.py:172-173 | in flag mode a press on a hidden square flips only its flag, and a second press restores the grid (a loss mark excepted) |
| `Play.PressKeepsValues` | main.py:163-205 | no press changes a square's mine or count, except that the pressed mine becomes `Detonated` |
| `Play.PressRevealsOnlyUnflagged` | main.py:163-205 | no press reveals a flagged square or hides a revealed one; hidden squares never increase |
| `Play.PressMine` | main.py:178-194 | pressing a hidden unflagged mine reveals it as detonated; every other square keeps value, flag and revealed, and is disabled; flagged non-mines get the false-flag mark, unflagged mines the exposed mark |
| `Play.PressZero` | main.py:196-205 | the flood reveals the pressed zero; each zero it reveals has every neighbour revealed or flagged; every square it reveals is reached from the pressed square by a walk over adjacent zeros it reveals; it reveals no mine and no flagged square and changes nothing else |
| `Play.PressPositive` | main.py:178-197 | a positive count is revealed alone, without recursion |
| `Play.PressSpreads` | main.py:163-205 | a reveal-mode press of a square that is not a mine only reveals safe squares, and every square it reveals is reached from the pressed square through revealed zeros |
| `Play.OrderStep` | main.py:198-205 | the squares a neighbour's press reveals stay connected to the zero square the flood started from |
| `Play.FloodConnected` | main.py:196-205 | every square the flood reveals ends a walk from the pressed square over adjacent zero squares it revealed |
| `Play.FloodUnique` | main.py:196-205 | two floods from the same square give the same grid: the result does not depend on the order of the recursive presses |
| `Play.PressDetermined` | main.py:163-205 | the outcome of a press is determined by the grid, the mode and the square |
| `Play.WalkBlocked` | main.py:196-205 | a column with no zero square stops a flood walk that starts left of it |
| `Play.FloodStopsAtCounts` | main.py:196-205 | on the one-row board 0 0 1 M 1 0 0, pressing the left corner reveals exactly the three squares left of the mine |
| `Play.FloodStep` | main.py:198-205 | pressing the next neighbour of the flood's square keeps the flood's invariant |
| `Play.FloodAdvance` | main.py:198-205 | by the placement invariant the neighbour of a zero square is not a mine, so its press is a safe step |
| `Play.FloodDone` | main.py:198-205 | after the eight recursive presses, every neighbour of the starting square is revealed or flagged |
| `Play.FloodEmptyThreeByThree` | main.py:196-205 | on an empty 3×3 board, pressing the centre reveals all nine squares |

## Left out

- The tkinter and PIL presentation is not modelled: the window, the buttons and their grid layout, the images, and the event loop (`init`). Their visible effect is kept only as the `disabled` and `mark` fields. The image loading at main.py:64-66 also calls `re.sub` without importing `re`; that belongs to the presentation and is not modelled.
- `random.randint` is replaced by the supplied draws `picks`. Board.PlaceMines, Board.Reset and the constructor require the draws to name at least `mines` distinct squares. The source has no such requirement: its loop simply terminates with probability one when there are enough squares, and never when there are not.
- Floating point in `__get_num_mines` is not modelled; the integer floor is used instead. It agrees with the truncated product on the nine presets; that is argued, not proved.
- `print_board` (console debugging output) and the module-level lines that build and run a board are not modelled.
- Win detection and a game-state enum are not modelled: the code has neither.
- Board.AddCount requires that no square is `Detonated`. In the source, adding 1 to `'GG'` would raise an error; placement always starts from a cleared board, so this never happens.
- Board.Press does not consult `disabled`, exactly as the source's `press`; refusing clicks on disabled buttons is the GUI's job.
- Cell identity: squares are values stored in the grid rather than objects. The source never shares a Cell between two positions, so no aliasing is lost.
