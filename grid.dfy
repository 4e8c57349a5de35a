// The grid `Board.board` as a value: a list of columns indexed [x][y], the
// neighbourhood of a square, adjacency counts and the placement invariant.

module Grids {
  import opened Cells

  type Grid = seq<seq<Cell>>

  /** `sizex` columns of `sizey` squares each. */
  ghost predicate Shaped(g: Grid, w: nat, h: nat) {
    |g| == w && forall i :: 0 <= i < w ==> |g[i]| == h
  }

  ghost predicate SameShape(g0: Grid, g1: Grid) {
    |g1| == |g0| && forall i :: 0 <= i < |g0| ==> |g1[i]| == |g0[i]|
  }

  /** `Board.__is_valid_cell` on the grid itself. */
  predicate InBounds(g: Grid, x: int, y: int) {
    0 <= x < |g| && 0 <= y < |g[x]|
  }

  /** The grid with square (x, y) replaced. */
  function Set(g: Grid, x: int, y: int, c: Cell): (r: Grid)
    requires InBounds(g, x, y)
    ensures SameShape(g, r) && r[x][y] == c
    ensures forall i, j :: InBounds(g, i, j) && (i != x || j != y) ==> r[i][j] == g[i][j]
  {
    g[x := g[x][y := c]]
  }

  lemma SetSame(g: Grid, x: int, y: int)
    requires InBounds(g, x, y)
    ensures Set(g, x, y, g[x][y]) == g
  {
    assert g[x][y := g[x][y]] == g[x];
  }

  lemma SetTwice(g: Grid, x: int, y: int, c: Cell, d: Cell)
    requires InBounds(g, x, y)
    ensures Set(Set(g, x, y, c), x, y, d) == Set(g, x, y, d)
  {
    assert g[x][y := c][y := d] == g[x][y := d];
  }

  /** Grids of the same shape that agree on every square are equal. */
  lemma GridsEqual(g1: Grid, g2: Grid)
    requires SameShape(g1, g2)
    requires forall i, j :: InBounds(g1, i, j) ==> g1[i][j] == g2[i][j]
    ensures g1 == g2
  {
    forall i | 0 <= i < |g1| ensures g1[i] == g2[i] {
      assert forall j :: 0 <= j < |g1[i]| ==> InBounds(g1, i, j);
    }
  }

  /** Chebyshev neighbours: one of the eight squares around (x, y). */
  predicate Adjacent(x: int, y: int, a: int, b: int) {
    -1 <= a - x <= 1 && -1 <= b - y <= 1 && (a != x || b != y)
  }

  /** 1 when (a, b) is on the grid and holds a mine of either kind. */
  function MinedAt(g: Grid, a: int, b: int): nat {
    if InBounds(g, a, b) && IsMined(g[a][b].value) then 1 else 0
  }

  /** The number of mines among the in-bounds neighbours of (x, y). */
  function MineNeighbours(g: Grid, x: int, y: int): nat {
    MinedAt(g, x - 1, y - 1) + MinedAt(g, x, y - 1) + MinedAt(g, x + 1, y - 1) +
    MinedAt(g, x - 1, y)                             + MinedAt(g, x + 1, y) +
    MinedAt(g, x - 1, y + 1) + MinedAt(g, x, y + 1) + MinedAt(g, x + 1, y + 1)
  }

  /** Every square that is not a mine shows the number of mines around it. */
  ghost predicate CountsCorrect(g: Grid) {
    forall i, j :: InBounds(g, i, j) && g[i][j].value.Count? ==> g[i][j].value.n == MineNeighbours(g, i, j)
  }

  /** The number of squares of the grid that satisfy p. */
  function CountCells(g: Grid, p: Cell -> bool): nat
    decreases |g|
  {
    if g == [] then 0 else CountRow(g[|g| - 1], p) + CountCells(g[..|g| - 1], p)
  }

  function CountRow(r: seq<Cell>, p: Cell -> bool): nat
    decreases |r|
  {
    if r == [] then 0 else (if p(r[|r| - 1]) then 1 else 0) + CountRow(r[..|r| - 1], p)
  }

  predicate HasMine(c: Cell) {
    IsMined(c.value)
  }

  predicate IsHidden(c: Cell) {
    !c.revealed
  }

  function NumMined(g: Grid): nat {
    CountCells(g, HasMine)
  }

  function Unrevealed(g: Grid): nat {
    CountCells(g, IsHidden)
  }

  /** The placement invariant: `mines` squares hold a mine and every other
      square shows its adjacency count. */
  ghost predicate Placed(g: Grid, mines: nat) {
    CountsCorrect(g) && NumMined(g) == mines
  }

  /** The mines are where they were (one may have gone off). */
  ghost predicate SameMines(g0: Grid, g1: Grid) {
    SameShape(g0, g1) &&
    forall i, j :: InBounds(g0, i, j) ==> IsMined(g1[i][j].value) == IsMined(g0[i][j].value)
  }

  /** The mines are where they were and no count changes. */
  ghost predicate MinesKept(g0: Grid, g1: Grid) {
    SameMines(g0, g1) &&
    forall i, j :: InBounds(g0, i, j) && g1[i][j].value.Count? ==> g1[i][j].value == g0[i][j].value
  }

  // ---------------------------------------------------------------------
  // Counting squares

  lemma {:induction false} CountRowSet(r: seq<Cell>, y: int, c: Cell, p: Cell -> bool)
    requires 0 <= y < |r|
    ensures CountRow(r[y := c], p) + (if p(r[y]) then 1 else 0) == CountRow(r, p) + (if p(c) then 1 else 0)
    decreases |r|
  {
    var r' := r[y := c];
    if y < |r| - 1 {
      assert r'[..|r'| - 1] == r[..|r| - 1][y := c];
      CountRowSet(r[..|r| - 1], y, c, p);
    } else {
      assert r'[..|r'| - 1] == r[..|r| - 1];
    }
  }

  /** Replacing one square changes a count by what that square contributes. */
  lemma {:induction false} CountSet(g: Grid, x: int, y: int, c: Cell, p: Cell -> bool)
    requires InBounds(g, x, y)
    ensures CountCells(Set(g, x, y, c), p) + (if p(g[x][y]) then 1 else 0) == CountCells(g, p) + (if p(c) then 1 else 0)
    decreases |g|
  {
    var g' := Set(g, x, y, c);
    if x < |g| - 1 {
      assert g'[..|g'| - 1] == Set(g[..|g| - 1], x, y, c);
      CountSet(g[..|g| - 1], x, y, c, p);
    } else {
      assert g'[..|g'| - 1] == g[..|g| - 1];
      CountRowSet(g[x], y, c, p);
    }
  }

  lemma {:induction false} CountRowMono(r0: seq<Cell>, r1: seq<Cell>, p: Cell -> bool)
    requires |r0| == |r1|
    requires forall j :: 0 <= j < |r0| && p(r1[j]) ==> p(r0[j])
    ensures CountRow(r1, p) <= CountRow(r0, p)
    decreases |r0|
  {
    if r0 != [] {
      var n := |r0| - 1;
      assert forall j :: 0 <= j < n ==> r0[..n][j] == r0[j] && r1[..n][j] == r1[j];
      CountRowMono(r0[..n], r1[..n], p);
    }
  }

  /** If every square satisfying p in g1 satisfies p in g0, g1 has no more
      such squares than g0. */
  lemma {:induction false} CountMono(g0: Grid, g1: Grid, p: Cell -> bool)
    requires SameShape(g0, g1)
    requires forall i, j :: InBounds(g0, i, j) && p(g1[i][j]) ==> p(g0[i][j])
    ensures CountCells(g1, p) <= CountCells(g0, p)
    decreases |g0|
  {
    if g0 != [] {
      var n := |g0| - 1;
      CountRowMono(g0[n], g1[n], p);
      assert forall i :: 0 <= i < n ==> g0[..n][i] == g0[i] && g1[..n][i] == g1[i];
      CountMono(g0[..n], g1[..n], p);
    }
  }

  lemma {:induction false} CountRowNone(r: seq<Cell>, p: Cell -> bool)
    requires forall j :: 0 <= j < |r| ==> !p(r[j])
    ensures CountRow(r, p) == 0
    decreases |r|
  {
    if r != [] {
      var n := |r| - 1;
      assert forall j :: 0 <= j < n ==> r[..n][j] == r[j];
      CountRowNone(r[..n], p);
    }
  }

  /** A grid with no square satisfying p counts 0. */
  lemma {:induction false} CountNone(g: Grid, p: Cell -> bool)
    requires forall i, j :: InBounds(g, i, j) ==> !p(g[i][j])
    ensures CountCells(g, p) == 0
    decreases |g|
  {
    if g != [] {
      var n := |g| - 1;
      CountRowNone(g[n], p);
      assert forall i :: 0 <= i < n ==> g[..n][i] == g[i];
      CountNone(g[..n], p);
    }
  }

  /** Squares that agree on p give equal counts. */
  lemma CountSame(g0: Grid, g1: Grid, p: Cell -> bool)
    requires SameShape(g0, g1)
    requires forall i, j :: InBounds(g0, i, j) ==> p(g1[i][j]) == p(g0[i][j])
    ensures CountCells(g1, p) == CountCells(g0, p)
  {
    CountMono(g0, g1, p);
    CountMono(g1, g0, p);
  }

  // ---------------------------------------------------------------------
  // Adjacency counts

  /** Neighbour counts depend only on where the mines are. */
  lemma NeighboursKept(g0: Grid, g1: Grid, x: int, y: int)
    requires SameMines(g0, g1)
    ensures MineNeighbours(g1, x, y) == MineNeighbours(g0, x, y)
  {
    forall a, b ensures MinedAt(g1, a, b) == MinedAt(g0, a, b) {
      if InBounds(g0, a, b) {
        assert IsMined(g1[a][b].value) == IsMined(g0[a][b].value);
      }
    }
  }

  /** A change that keeps every square's kind and count keeps the placement
      invariant. */
  lemma PlacedKept(g0: Grid, g1: Grid, mines: nat)
    requires Placed(g0, mines) && MinesKept(g0, g1)
    ensures Placed(g1, mines)
  {
    forall i, j | InBounds(g1, i, j) && g1[i][j].value.Count?
      ensures g1[i][j].value.n == MineNeighbours(g1, i, j)
    {
      NeighboursKept(g0, g1, i, j);
    }
    CountSame(g0, g1, HasMine);
  }

  /** Replacing a square by one of the same kind and count keeps the
      placement invariant. */
  lemma PlacedSet(g: Grid, x: int, y: int, c: Cell, mines: nat)
    requires Placed(g, mines) && InBounds(g, x, y)
    requires IsMined(c.value) == IsMined(g[x][y].value) && (c.value.Count? ==> c.value == g[x][y].value)
    ensures Placed(Set(g, x, y, c), mines)
  {
    PlacedKept(g, Set(g, x, y, c), mines);
  }

  /** A zero count means that no neighbour is a mine, and conversely. */
  lemma ZeroCount(g: Grid, x: int, y: int)
    ensures MineNeighbours(g, x, y) == 0 <==>
      forall a, b :: Adjacent(x, y, a, b) && InBounds(g, a, b) ==> !IsMined(g[a][b].value)
  {
    if MineNeighbours(g, x, y) == 0 {
      forall a, b | Adjacent(x, y, a, b) && InBounds(g, a, b) ensures !IsMined(g[a][b].value) {
        assert MinedAt(g, a, b) == 0;
      }
    }
  }

  /** Putting a mine on the empty square (x, y) adds one to the mine count
      of each of its neighbours and nothing to any other square. */
  lemma MineNeighboursAfterMine(g0: Grid, g1: Grid, x: int, y: int, i: int, j: int)
    requires InBounds(g0, x, y) && !IsMined(g0[x][y].value)
    requires SameShape(g0, g1) && IsMined(g1[x][y].value)
    requires forall a, b :: InBounds(g0, a, b) && (a != x || b != y) ==> IsMined(g1[a][b].value) == IsMined(g0[a][b].value)
    ensures MineNeighbours(g1, i, j) == MineNeighbours(g0, i, j) + (if Adjacent(i, j, x, y) then 1 else 0)
  {
    forall a, b ensures MinedAt(g1, a, b) == MinedAt(g0, a, b) + (if a == x && b == y then 1 else 0) {
      if InBounds(g0, a, b) && (a != x || b != y) {
        assert IsMined(g1[a][b].value) == IsMined(g0[a][b].value);
      }
    }
  }
}
