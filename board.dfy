// class Board of main.py without its window: the grid, the reveal/flag
// mode, mine placement, reset and the recursive press.

module Minesweeper {
  import opened Cells
  import opened Grids
  import opened Presets
  import opened Play

  /** The neighbour offsets `__add_count` walks through, in its order. */
  const Positions: seq<(int, int)> := [(-1, -1), (0, -1), (1, -1), (-1, 0), (1, 0), (-1, 1), (0, 1), (1, 1)]

  /** Where (dx, dy) sits in `Positions`; 8 when it is not there. */
  function PositionIndex(dx: int, dy: int): (k: nat)
    ensures k < 8 <==> -1 <= dx <= 1 && -1 <= dy <= 1 && (dx != 0 || dy != 0)
    ensures k < 8 ==> Positions[k] == (dx, dy)
  {
    if dx == -1 && dy == -1 then 0
    else if dx == 0 && dy == -1 then 1
    else if dx == 1 && dy == -1 then 2
    else if dx == -1 && dy == 0 then 3
    else if dx == 1 && dy == 0 then 4
    else if dx == -1 && dy == 1 then 5
    else if dx == 0 && dy == 1 then 6
    else if dx == 1 && dy == 1 then 7
    else 8
  }

  /** One more mine next to a square that shows a count. */
  function Bump(c: Cell): (r: Cell)
    ensures c.value.Count? ==> r == c.(value := Count(c.value.n + 1))
    ensures !c.value.Count? ==> r == c
  {
    if c.value.Count? then c.(value := Count(c.value.n + 1)) else c
  }

  /** g2 is g1 with one added to the count of every neighbour of (x, y)
      that shows a count. */
  ghost predicate CountsAdded(g1: Grid, g2: Grid, x: int, y: int) {
    SameShape(g1, g2) &&
    forall a, b :: InBounds(g1, a, b) ==> g2[a][b] == (if Adjacent(x, y, a, b) then Bump(g1[a][b]) else g1[a][b])
  }

  /** Coordinates the random generator may produce on a w by h board. */
  predicate PicksInRange(picks: seq<(int, int)>, w: nat, h: nat) {
    forall k :: 0 <= k < |picks| ==> 0 <= picks[k].0 < w && 0 <= picks[k].1 < h
  }

  /** The distinct coordinates among the draws. */
  function PickSet(picks: seq<(int, int)>): set<(int, int)> {
    set k | 0 <= k < |picks| :: picks[k]
  }

  /** The distinct draws from index `from` on that still name a square
      without a mine. */
  ghost function Free(g: Grid, picks: seq<(int, int)>, from: nat): set<(int, int)> {
    set k | from <= k < |picks| && InBounds(g, picks[k].0, picks[k].1) && !IsMined(g[picks[k].0][picks[k].1].value) :: picks[k]
  }

  /** The two grids differ at most in what the squares hold. */
  ghost predicate OnlyValues(g0: Grid, g1: Grid) {
    SameShape(g0, g1) &&
    forall i, j :: InBounds(g0, i, j) ==> g1[i][j] == g0[i][j].(value := g1[i][j].value)
  }

  ghost predicate NoDetonated(g: Grid) {
    forall i, j :: InBounds(g, i, j) ==> !g[i][j].value.Detonated?
  }

  ghost predicate AllZero(g: Grid) {
    forall i, j :: InBounds(g, i, j) ==> g[i][j].value == Count(0)
  }

  /** A clear square of a fresh round: hidden, unflagged, clickable, plain. */
  ghost predicate Cleared(c: Cell) {
    !c.revealed && !c.flagged && !c.disabled && c.mark == Unmarked && !c.value.Detonated?
  }

  lemma FreeAtStart(g: Grid, picks: seq<(int, int)>, w: nat, h: nat)
    requires Shaped(g, w, h) && AllZero(g) && PicksInRange(picks, w, h)
    ensures Free(g, picks, 0) == PickSet(picks)
  {
    forall p | p in PickSet(picks) ensures p in Free(g, picks, 0) {
      var k :| 0 <= k < |picks| && picks[k] == p;
      assert InBounds(g, picks[k].0, picks[k].1);
    }
  }

  lemma FreeNonEmpty(g: Grid, picks: seq<(int, int)>, from: nat)
    requires |Free(g, picks, from)| > 0
    ensures from < |picks|
  {
    var p :| p in Free(g, picks, from);
  }

  /** A draw that names a mine changes nothing that is still free. */
  lemma FreeSkip(g: Grid, picks: seq<(int, int)>, i: nat)
    requires i < |picks| && InBounds(g, picks[i].0, picks[i].1) && IsMined(g[picks[i].0][picks[i].1].value)
    ensures Free(g, picks, i + 1) == Free(g, picks, i)
  {
  }

  /** A draw that places a mine removes exactly its square from the free
      ones. */
  lemma FreeAfterMine(g0: Grid, g1: Grid, picks: seq<(int, int)>, i: nat)
    requires i < |picks| && InBounds(g0, picks[i].0, picks[i].1) && SameShape(g0, g1)
    requires !IsMined(g0[picks[i].0][picks[i].1].value) && IsMined(g1[picks[i].0][picks[i].1].value)
    requires forall a, b :: InBounds(g0, a, b) && (a, b) != picks[i] ==> IsMined(g1[a][b].value) == IsMined(g0[a][b].value)
    ensures |Free(g1, picks, i + 1)| == |Free(g0, picks, i)| - 1
  {
    var p := picks[i];
    var before, after := Free(g0, picks, i), Free(g1, picks, i + 1);
    assert p in before;
    forall q | q in after ensures q in before - {p} {
      var k :| i + 1 <= k < |picks| && InBounds(g1, picks[k].0, picks[k].1) && !IsMined(g1[picks[k].0][picks[k].1].value) && picks[k] == q;
      assert InBounds(g0, picks[k].0, picks[k].1);
    }
    forall q | q in before - {p} ensures q in after {
      var k :| i <= k < |picks| && InBounds(g0, picks[k].0, picks[k].1) && !IsMined(g0[picks[k].0][picks[k].1].value) && picks[k] == q;
      assert k != i;
    }
    assert after == before - {p};
  }

  /** Putting a mine on a square without one and then adding one to each
      neighbour's count keeps every count right and adds one mine. */
  lemma PlaceOne(g0: Grid, g1: Grid, g2: Grid, x: int, y: int)
    requires CountsCorrect(g0) && InBounds(g0, x, y) && !IsMined(g0[x][y].value)
    requires g1 == Set(g0, x, y, g0[x][y].(value := Mine))
    requires CountsAdded(g1, g2, x, y)
    ensures CountsCorrect(g2)
    ensures NumMined(g2) == NumMined(g0) + 1
  {
    assert SameMines(g1, g2);
    forall i, j | InBounds(g2, i, j) && g2[i][j].value.Count?
      ensures g2[i][j].value.n == MineNeighbours(g2, i, j)
    {
      assert InBounds(g1, i, j) && InBounds(g0, i, j);
      MineNeighboursAfterMine(g0, g1, x, y, i, j);
      NeighboursKept(g1, g2, i, j);
    }
    CountSet(g0, x, y, g1[x][y], HasMine);
    CountSame(g1, g2, HasMine);
  }

  /** The invariant of the placement loop after i draws, with toPlace mines
      still to place, starting from the grid g0. */
  ghost predicate Placing(g0: Grid, g: Grid, picks: seq<(int, int)>, i: nat, toPlace: nat, mines: nat, w: nat, h: nat) {
    Shaped(g, w, h) && CountsCorrect(g) && NoDetonated(g) &&
    NumMined(g) + toPlace == mines &&
    OnlyValues(g0, g) &&
    i <= |picks| && PicksInRange(picks, w, h) && |Free(g, picks, i)| >= toPlace
  }

  lemma PlacingStart(g0: Grid, picks: seq<(int, int)>, mines: nat, w: nat, h: nat)
    requires Shaped(g0, w, h) && AllZero(g0)
    requires PicksInRange(picks, w, h) && |PickSet(picks)| >= mines
    ensures Placing(g0, g0, picks, 0, mines, mines, w, h)
  {
    FreeAtStart(g0, picks, w, h);
    CountNone(g0, HasMine);
  }

  /** While mines remain to be placed there is a next draw, and it names a
      square of the grid; putting a mine there leaves a grid that
      `__add_count` accepts. */
  lemma PlacingDraw(g0: Grid, g: Grid, picks: seq<(int, int)>, i: nat, toPlace: nat, mines: nat, w: nat, h: nat)
    requires Placing(g0, g, picks, i, toPlace, mines, w, h) && toPlace > 0
    ensures i < |picks| && InBounds(g, picks[i].0, picks[i].1)
    ensures var g1 := Set(g, picks[i].0, picks[i].1, g[picks[i].0][picks[i].1].(value := Mine));
      Shaped(g1, w, h) && NoDetonated(g1)
  {
    FreeNonEmpty(g, picks, i);
  }

  /** A draw that names a square with a mine is discarded. */
  lemma PlacingSkip(g0: Grid, g: Grid, picks: seq<(int, int)>, i: nat, toPlace: nat, mines: nat, w: nat, h: nat)
    requires Placing(g0, g, picks, i, toPlace, mines, w, h) && i < |picks|
    requires g[picks[i].0][picks[i].1].value == Mine
    ensures Placing(g0, g, picks, i + 1, toPlace, mines, w, h)
  {
    FreeSkip(g, picks, i);
  }

  /** A draw that names a square without a mine gets one, and its
      neighbours' counts go up. */
  lemma PlacingMine(g0: Grid, g: Grid, g2: Grid, picks: seq<(int, int)>, i: nat, toPlace: nat, mines: nat, w: nat, h: nat)
    requires Placing(g0, g, picks, i, toPlace, mines, w, h) && i < |picks| && toPlace > 0
    requires g[picks[i].0][picks[i].1].value != Mine
    requires Shaped(g2, w, h)
    requires CountsAdded(Set(g, picks[i].0, picks[i].1, g[picks[i].0][picks[i].1].(value := Mine)), g2, picks[i].0, picks[i].1)
    ensures Placing(g0, g2, picks, i + 1, toPlace - 1, mines, w, h)
  {
    var (x, y) := picks[i];
    var g1 := Set(g, x, y, g[x][y].(value := Mine));
    PlaceOne(g, g1, g2, x, y);
    assert SameMines(g1, g2);
    FreeAfterMine(g, g2, picks, i);
    OnlyValuesMine(g0, g, g2, x, y);
  }

  /** Placing a mine and bumping counts touches nothing but values. */
  lemma OnlyValuesMine(g0: Grid, g: Grid, g2: Grid, x: int, y: int)
    requires OnlyValues(g0, g) && NoDetonated(g) && InBounds(g, x, y)
    requires CountsAdded(Set(g, x, y, g[x][y].(value := Mine)), g2, x, y)
    ensures OnlyValues(g0, g2) && NoDetonated(g2)
  {
    forall a, b | InBounds(g0, a, b) ensures g2[a][b] == g0[a][b].(value := g2[a][b].value) {
      assert InBounds(g, a, b) && InBounds(g2, a, b);
    }
  }

  class Board {
    const sizex: nat
    const sizey: nat
    const mines: nat
    var board: Grid
    var state: Mode

    /** The board's invariant: the grid has the board's size and the mines
        are placed with the counts around them. */
    ghost predicate Valid()
      reads this
    {
      Shaped(board, sizex, sizey) && Placed(board, mines)
    }

    /** `Board.__init__`: size and mine count from the presets, every square
        fresh, reveal mode, mines placed at the draws `picks`. */
    constructor (difficulty: string, size: string, picks: seq<(int, int)>)
      requires PicksInRange(picks, GetSize(size).0, GetSize(size).1)
      requires |PickSet(picks)| >= NumMines(difficulty, GetSize(size).0, GetSize(size).1)
      ensures Valid()
      ensures (sizex, sizey) == GetSize(size) && mines == NumMines(difficulty, sizex, sizey)
      ensures state == RevealMode
      ensures forall i, j :: InBounds(board, i, j) ==> Cleared(board[i][j])
    {
      var (w, h) := GetSize(size);
      sizex, sizey := w, h;
      mines := NumMines(difficulty, w, h);
      board := seq(w, _ => seq(h, _ => NewCell()));
      state := RevealMode;
      new;
      PlaceMines(picks);
    }

    /** `__is_valid_cell`. */
    predicate IsValidCell(x: int, y: int)
      reads this
      ensures Shaped(board, sizex, sizey) ==> (IsValidCell(x, y) <==> InBounds(board, x, y))
    {
      0 <= x < sizex && 0 <= y < sizey
    }

    /** `__add_count`: add one to the count of every neighbour of (x, y) that
        is on the board and not a mine. */
    method AddCount(x: int, y: int)
      requires Shaped(board, sizex, sizey) && InBounds(board, x, y) && NoDetonated(board)
      modifies this`board
      ensures Shaped(board, sizex, sizey)
      ensures CountsAdded(old(board), board, x, y)
    {
      for k := 0 to |Positions|
        invariant Shaped(board, sizex, sizey)
        invariant forall i, j :: InBounds(board, i, j) ==>
          board[i][j] == (if PositionIndex(i - x, j - y) < k then Bump(old(board)[i][j]) else old(board)[i][j])
      {
        var a, b := x + Positions[k].0, y + Positions[k].1;
        assert PositionIndex(a - x, b - y) == k;
        if IsValidCell(a, b) {
          if board[a][b].value != Mine {
            board := Set(board, a, b, board[a][b].(value := Count(board[a][b].value.n + 1)));
          }
        }
      }
    }

    /** `__change_state`: switch between revealing and flagging. */
    method ChangeState()
      modifies this`state
      ensures state == Toggle(old(state))
    {
      if state == RevealMode {
        state := FlagMode;
      } else {
        state := RevealMode;
      }
    }

    /** `__place_mines`: draw coordinates until `mines` squares hold a mine,
        adding to the counts around each new one. */
    method PlaceMines(picks: seq<(int, int)>)
      requires Shaped(board, sizex, sizey) && AllZero(board)
      requires PicksInRange(picks, sizex, sizey) && |PickSet(picks)| >= mines
      modifies this`board
      ensures Shaped(board, sizex, sizey) && Placed(board, mines) && NoDetonated(board)
      ensures OnlyValues(old(board), board)
    {
      var toPlace := mines;
      var i := 0;
      PlacingStart(board, picks, mines, sizex, sizey);
      while toPlace > 0
        invariant Placing(old(board), board, picks, i, toPlace, mines, sizex, sizey)
        decreases |picks| - i
      {
        PlacingDraw(old(board), board, picks, i, toPlace, mines, sizex, sizey);
        var (x, y) := picks[i];
        if board[x][y].value != Mine {
          ghost var g := board;
          board := Set(board, x, y, board[x][y].(value := Mine));
          AddCount(x, y);
          PlacingMine(old(board), g, board, picks, i, toPlace, mines, sizex, sizey);
          toPlace := toPlace - 1;
        } else {
          PlacingSkip(old(board), board, picks, i, toPlace, mines, sizex, sizey);
        }
        i := i + 1;
      }
    }

    /** `Board.reset`: every square back to fresh, then a new placement at the
        draws `picks`; the mode stays as it was. */
    method Reset(picks: seq<(int, int)>)
      requires Valid()
      requires PicksInRange(picks, sizex, sizey) && |PickSet(picks)| >= mines
      modifies this`board
      ensures Valid() && state == old(state)
      ensures forall i, j :: InBounds(board, i, j) ==> Cleared(board[i][j])
    {
      for i := 0 to sizex
        invariant Shaped(board, sizex, sizey)
        invariant forall a, b :: InBounds(board, a, b) && a < i ==> board[a][b] == NewCell()
      {
        for j := 0 to sizey
          invariant Shaped(board, sizex, sizey)
          invariant forall a, b :: InBounds(board, a, b) && (a < i || (a == i && b < j)) ==> board[a][b] == NewCell()
        {
          board := Set(board, i, j, Cells.Reset(board[i][j]));
        }
      }
      PlaceMines(picks);
    }

    /** The loss sweep of `press`, over the whole grid. */
    method LossSweep()
      requires Shaped(board, sizex, sizey)
      modifies this`board
      ensures Swept(old(board), board)
    {
      for i := 0 to sizex
        invariant Shaped(board, sizex, sizey)
        invariant forall a, b :: InBounds(board, a, b) ==>
          board[a][b] == (if a < i then SweepCell(old(board)[a][b]) else old(board)[a][b])
      {
        for j := 0 to sizey
          invariant Shaped(board, sizex, sizey)
          invariant forall a, b :: InBounds(board, a, b) ==>
            board[a][b] == (if a < i || (a == i && b < j) then SweepCell(old(board)[a][b]) else old(board)[a][b])
        {
          var cell := board[i][j];
          if cell.value != Detonated {
            var mark := cell.mark;
            if cell.flagged && cell.value != Mine {
              mark := FalseFlag;
            } else if !cell.flagged && cell.value == Mine {
              mark := ExposedMine;
            }
            board := Set(board, i, j, cell.(mark := mark, disabled := true));
          }
        }
      }
    }

    /** `Board.press`. Each recursive call reveals a hidden square first, so
        the number of hidden squares bounds the recursion. */
    method Press(x: int, y: int)
      requires Valid()
      modifies this`board
      decreases Unrevealed(board), 0
      ensures Valid() && state == old(state)
      ensures PressOutcome(old(board), board, state, x, y)
    {
      if !IsValidCell(x, y) {
        return;
      }
      var cell := board[x][y];
      if cell.revealed {
        return;
      }
      ghost var g0 := board;
      if state == FlagMode {
        PlacedSet(board, x, y, ToggleFlag(cell), mines);
        OutcomeFlag(board, x, y);
        board := Set(board, x, y, ToggleFlag(cell));
        return;
      }
      if cell.flagged {
        return;
      }
      PlacedSet(board, x, y, Reveal(cell), mines);
      board := Set(board, x, y, Reveal(cell));
      if cell.value == Mine {
        PlacedSet(board, x, y, board[x][y].(value := Detonated), mines);
        board := Set(board, x, y, board[x][y].(value := Detonated));
        ghost var g1 := board;
        LossSweep();
        SweptPlaced(g1, board, mines);
        OutcomeMine(g0, board, x, y);
      } else if cell.value == Count(0) {
        CountSet(g0, x, y, Reveal(cell), IsHidden);
        FloodStart(g0, x, y);
        PressNeighbour(g0, x, y, x - 1, y - 1, 0);
        PressNeighbour(g0, x, y, x - 1, y, 1);
        PressNeighbour(g0, x, y, x - 1, y + 1, 2);
        PressNeighbour(g0, x, y, x, y - 1, 3);
        PressNeighbour(g0, x, y, x, y + 1, 4);
        PressNeighbour(g0, x, y, x + 1, y - 1, 5);
        PressNeighbour(g0, x, y, x + 1, y, 6);
        PressNeighbour(g0, x, y, x + 1, y + 1, 7);
        FloodDone(g0, board, x, y);
      } else {
        OutcomeReveal(g0, x, y);
      }
    }

    /** One of the eight recursive calls `press` makes around the zero square
        (x, y) it has just revealed: the press of neighbour (a, b), the k-th
        in the source's order. The flood has reached its k-th neighbour before
        the call and its (k+1)-th after it. */
    method PressNeighbour(ghost g0: Grid, x: int, y: int, a: int, b: int, k: nat)
      requires Valid() && state == RevealMode
      requires FloodSoFar(g0, board, x, y, k) && k < 8
      requires Adjacent(x, y, a, b) && FloodIndex(a - x, b - y) == k
      modifies this`board
      decreases Unrevealed(board), 1
      ensures Valid() && state == old(state)
      ensures FloodSoFar(g0, board, x, y, k + 1)
      ensures Unrevealed(board) <= old(Unrevealed(board))
    {
      ghost var g := board;
      Press(a, b);
      FloodAdvance(g0, g, board, x, y, a, b, k);
    }
  }
}
