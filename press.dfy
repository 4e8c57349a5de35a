// What one call of `Board.press` does to the grid, stated as a relation
// between the grid before and the grid after, together with the facts about
// the flood reveal that the recursive implementation in board.dfy is proved
// against.

module Play {
  import opened Cells
  import opened Grids

  /** `Board.state`: whether a press reveals or flags. */
  datatype Mode = RevealMode | FlagMode

  /** `Board.__change_state`. */
  function Toggle(m: Mode): (r: Mode)
    ensures r != m
  {
    if m == RevealMode then FlagMode else RevealMode
  }

  lemma ToggleTwice(m: Mode)
    ensures Toggle(Toggle(m)) == m
  {
  }

  /** The loss sweep on one square: the mine that went off is skipped; any
      other square is disabled, a flagged non-mine shows a false flag and an
      unflagged mine shows itself. */
  function SweepCell(c: Cell): Cell {
    if c.value.Detonated? then c
    else
      var mark :=
        if c.flagged && !c.value.Mine? then FalseFlag
        else if !c.flagged && c.value.Mine? then ExposedMine
        else c.mark;
      c.(mark := mark, disabled := true)
  }

  /** g1 is the loss sweep applied to every square of g0. */
  ghost predicate Swept(g0: Grid, g1: Grid) {
    SameShape(g0, g1) && forall i, j :: InBounds(g0, i, j) ==> g1[i][j] == SweepCell(g0[i][j])
  }

  ghost predicate NewlyRevealed(g0: Grid, g1: Grid, i: int, j: int) {
    InBounds(g0, i, j) && InBounds(g1, i, j) && !g0[i][j].revealed && g1[i][j].revealed
  }

  ghost predicate NewZero(g0: Grid, g1: Grid, i: int, j: int) {
    NewlyRevealed(g0, g1, i, j) && g1[i][j].value == Count(0)
  }

  /** g1 only differs from g0 by revealing squares that were hidden and
      unflagged. */
  ghost predicate OnlyReveals(g0: Grid, g1: Grid) {
    SameShape(g0, g1) &&
    forall i, j :: InBounds(g0, i, j) ==>
      g1[i][j] == g0[i][j] || (!g0[i][j].revealed && !g0[i][j].flagged && g1[i][j] == Reveal(g0[i][j]))
  }

  /** No square revealed between g0 and g1 is a mine. */
  ghost predicate NewSafe(g0: Grid, g1: Grid) {
    forall i, j :: NewlyRevealed(g0, g1, i, j) ==> g1[i][j].value.Count?
  }

  /** A press of (a, b) would do nothing: off the grid, revealed or flagged. */
  predicate Covered(g: Grid, a: int, b: int) {
    !InBounds(g, a, b) || g[a][b].revealed || g[a][b].flagged
  }

  ghost predicate NeighboursCovered(g: Grid, x: int, y: int) {
    forall a, b :: Adjacent(x, y, a, b) ==> Covered(g, a, b)
  }

  /** Every zero square revealed between g0 and g1 has had all its
      neighbours pressed. */
  ghost predicate ZeroClosed(g0: Grid, g1: Grid) {
    forall i, j :: NewZero(g0, g1, i, j) ==> NeighboursCovered(g1, i, j)
  }

  /** s lists exactly the squares revealed between g0 and g1, starting with
      (x, y), and every later square borders an earlier zero square of the
      list: the order in which a flood from (x, y) can reach them. */
  ghost predicate RevealOrder(g0: Grid, g1: Grid, x: int, y: int, s: seq<(int, int)>) {
    Listed(g0, g1, s) && (|s| > 0 ==> s[0] == (x, y)) && Linked(g0, g1, s)
  }

  /** s lists exactly the squares revealed between g0 and g1. */
  ghost predicate Listed(g0: Grid, g1: Grid, s: seq<(int, int)>) {
    (forall k :: 0 <= k < |s| ==> NewlyRevealed(g0, g1, s[k].0, s[k].1)) &&
    (forall i, j :: NewlyRevealed(g0, g1, i, j) ==> (i, j) in s)
  }

  /** Every square of s after the first borders an earlier zero square of s. */
  ghost predicate Linked(g0: Grid, g1: Grid, s: seq<(int, int)>) {
    forall k :: 0 < k < |s| ==> LinkedAt(g0, g1, s, k)
  }

  ghost predicate LinkedAt(g0: Grid, g1: Grid, s: seq<(int, int)>, k: int)
    requires 0 <= k < |s|
  {
    exists l :: 0 <= l < k && Adjacent(s[k].0, s[k].1, s[l].0, s[l].1) && NewZero(g0, g1, s[l].0, s[l].1)
  }

  /** Every square revealed between g0 and g1 was reached from (x, y) through
      zero squares revealed between them. */
  ghost predicate Connected(g0: Grid, g1: Grid, x: int, y: int) {
    exists s :: RevealOrder(g0, g1, x, y, s)
  }

  /** What a reveal-mode press of a square that is not a mine does. */
  ghost predicate Spread(g0: Grid, g1: Grid, x: int, y: int) {
    OnlyReveals(g0, g1) && NewSafe(g0, g1) && ZeroClosed(g0, g1) && Connected(g0, g1, x, y) && Covered(g1, x, y)
  }

  /** p walks from square to adjacent square over zero squares revealed
      between g0 and g1 and ends on a square revealed between them. */
  ghost predicate FloodPath(g0: Grid, g1: Grid, p: seq<(int, int)>) {
    |p| > 0 &&
    (forall k :: 0 <= k < |p| - 1 ==>
      NewZero(g0, g1, p[k].0, p[k].1) && Adjacent(p[k].0, p[k].1, p[k + 1].0, p[k + 1].1)) &&
    NewlyRevealed(g0, g1, p[|p| - 1].0, p[|p| - 1].1)
  }

  /** The flood reveal started at the hidden zero square (x, y). */
  ghost predicate Flood(g0: Grid, g1: Grid, x: int, y: int) {
    InBounds(g0, x, y) && Spread(g0, g1, x, y) && g1[x][y] == Reveal(g0[x][y])
  }

  /** The effect of `press(x, y)` in the given mode. */
  ghost predicate PressOutcome(g0: Grid, g1: Grid, mode: Mode, x: int, y: int) {
    if !InBounds(g0, x, y) || g0[x][y].revealed then g1 == g0
    else if mode == FlagMode then g1 == Set(g0, x, y, ToggleFlag(g0[x][y]))
    else if g0[x][y].flagged then g1 == g0
    else if g0[x][y].value == Mine then Swept(Set(g0, x, y, Reveal(g0[x][y]).(value := Detonated)), g1)
    else if g0[x][y].value == Count(0) then Flood(g0, g1, x, y)
    else g1 == Set(g0, x, y, Reveal(g0[x][y]))
  }

  /** The order in which `press` visits the neighbours of a zero square;
      8 for a square that is not a neighbour. */
  function FloodIndex(dx: int, dy: int): (k: nat)
    ensures k < 8 <==> -1 <= dx <= 1 && -1 <= dy <= 1 && (dx != 0 || dy != 0)
  {
    if dx == -1 && dy == -1 then 0
    else if dx == -1 && dy == 0 then 1
    else if dx == -1 && dy == 1 then 2
    else if dx == 0 && dy == -1 then 3
    else if dx == 0 && dy == 1 then 4
    else if dx == 1 && dy == -1 then 5
    else if dx == 1 && dy == 0 then 6
    else if dx == 1 && dy == 1 then 7
    else 8
  }

  /** Part-way through the flood from (x, y): the square is revealed and the
      neighbours visited first, in the source's order, have been pressed. */
  ghost predicate FloodSoFar(g0: Grid, g: Grid, x: int, y: int, k: nat) {
    InBounds(g0, x, y) && !g0[x][y].revealed && !g0[x][y].flagged && g0[x][y].value == Count(0) &&
    OnlyReveals(g0, g) && g[x][y] == Reveal(g0[x][y]) && NewSafe(g0, g) &&
    (forall i, j :: NewZero(g0, g, i, j) && (i != x || j != y) ==> NeighboursCovered(g, i, j)) &&
    Connected(g0, g, x, y) &&
    k <= 8 &&
    (forall a, b :: Adjacent(x, y, a, b) && FloodIndex(a - x, b - y) < k ==> Covered(g, a, b))
  }

  // ---------------------------------------------------------------------
  // Reveal-only steps

  lemma OnlyRevealsTrans(g0: Grid, g1: Grid, g2: Grid)
    requires OnlyReveals(g0, g1) && OnlyReveals(g1, g2)
    ensures OnlyReveals(g0, g2)
  {
    forall i, j | InBounds(g0, i, j)
      ensures g2[i][j] == g0[i][j] || (!g0[i][j].revealed && !g0[i][j].flagged && g2[i][j] == Reveal(g0[i][j]))
    {
      assert InBounds(g1, i, j);
    }
  }

  lemma CoveredMono(g0: Grid, g1: Grid, a: int, b: int)
    requires OnlyReveals(g0, g1) && Covered(g0, a, b)
    ensures Covered(g1, a, b)
  {
  }

  lemma NeighboursCoveredMono(g0: Grid, g1: Grid, x: int, y: int)
    requires OnlyReveals(g0, g1) && NeighboursCovered(g0, x, y)
    ensures NeighboursCovered(g1, x, y)
  {
    forall a, b | Adjacent(x, y, a, b) ensures Covered(g1, a, b) {
      CoveredMono(g0, g1, a, b);
    }
  }

  /** A reveal-only step keeps every square's kind and count, and never adds a
      hidden square. */
  lemma OnlyRevealsKeeps(g0: Grid, g1: Grid)
    requires OnlyReveals(g0, g1)
    ensures MinesKept(g0, g1)
    ensures Unrevealed(g1) <= Unrevealed(g0)
  {
    CountMono(g0, g1, IsHidden);
  }

  /** The loss sweep changes no square's contents. */
  lemma SweptPlaced(g0: Grid, g1: Grid, mines: nat)
    requires Placed(g0, mines) && Swept(g0, g1)
    ensures Placed(g1, mines)
  {
    PlacedKept(g0, g1, mines);
  }

  // ---------------------------------------------------------------------
  // The flood, step by step

  lemma FloodStart(g0: Grid, x: int, y: int)
    requires InBounds(g0, x, y) && !g0[x][y].revealed && !g0[x][y].flagged && g0[x][y].value == Count(0)
    ensures FloodSoFar(g0, Set(g0, x, y, Reveal(g0[x][y])), x, y, 0)
  {
    var g := Set(g0, x, y, Reveal(g0[x][y]));
    forall i, j | NewlyRevealed(g0, g, i, j) ensures (i, j) in [(x, y)] {
    }
    assert RevealOrder(g0, g, x, y, [(x, y)]);
  }

  /** A square the flood revealed earlier stays as it was revealed. */
  lemma KeepNew(g0: Grid, g: Grid, g': Grid, i: int, j: int)
    requires OnlyReveals(g0, g) && OnlyReveals(g, g') && NewlyRevealed(g0, g, i, j)
    ensures NewlyRevealed(g0, g', i, j) && g'[i][j] == g[i][j]
  {
    assert InBounds(g, i, j);
  }

  /** A square a later press reveals was hidden from the start. */
  lemma LiftNew(g0: Grid, g: Grid, g': Grid, i: int, j: int)
    requires OnlyReveals(g0, g) && SameShape(g, g') && NewlyRevealed(g, g', i, j)
    ensures NewlyRevealed(g0, g', i, j)
  {
    assert InBounds(g0, i, j);
  }

  lemma ListedAppend(g0: Grid, g: Grid, g': Grid, s: seq<(int, int)>, t: seq<(int, int)>)
    requires OnlyReveals(g0, g) && OnlyReveals(g, g')
    requires Listed(g0, g, s) && Listed(g, g', t)
    ensures Listed(g0, g', s + t)
  {
    var u := s + t;
    forall k | 0 <= k < |u| ensures NewlyRevealed(g0, g', u[k].0, u[k].1) {
      if k < |s| {
        KeepNew(g0, g, g', s[k].0, s[k].1);
      } else {
        LiftNew(g0, g, g', t[k - |s|].0, t[k - |s|].1);
      }
    }
    forall i, j | NewlyRevealed(g0, g', i, j) ensures (i, j) in u {
      if g[i][j].revealed {
        assert NewlyRevealed(g0, g, i, j);
      } else {
        assert NewlyRevealed(g, g', i, j);
      }
    }
  }

  lemma LinkedAppend(g0: Grid, g: Grid, g': Grid, x: int, y: int, a: int, b: int,
                     s: seq<(int, int)>, t: seq<(int, int)>)
    requires OnlyReveals(g0, g) && OnlyReveals(g, g')
    requires NewZero(g0, g, x, y) && Adjacent(x, y, a, b)
    requires |s| > 0 && s[0] == (x, y) && (|t| > 0 ==> t[0] == (a, b))
    requires Linked(g0, g, s) && Linked(g, g', t)
    ensures Linked(g0, g', s + t)
  {
    var u := s + t;
    forall k | 0 < k < |u| ensures LinkedAt(g0, g', u, k) {
      if k < |s| {
        assert LinkedAt(g0, g, s, k);
        var l :| 0 <= l < k && Adjacent(s[k].0, s[k].1, s[l].0, s[l].1) && NewZero(g0, g, s[l].0, s[l].1);
        KeepNew(g0, g, g', s[l].0, s[l].1);
        assert u[k] == s[k] && u[l] == s[l];
        assert Adjacent(u[k].0, u[k].1, u[l].0, u[l].1) && NewZero(g0, g', u[l].0, u[l].1);
      } else if k == |s| {
        KeepNew(g0, g, g', x, y);
        assert u[k] == (a, b) && u[0] == (x, y);
        assert Adjacent(u[k].0, u[k].1, u[0].0, u[0].1) && NewZero(g0, g', u[0].0, u[0].1);
      } else {
        var m := k - |s|;
        assert LinkedAt(g, g', t, m);
        var l :| 0 <= l < m && Adjacent(t[m].0, t[m].1, t[l].0, t[l].1) && NewZero(g, g', t[l].0, t[l].1);
        LiftNew(g0, g, g', t[l].0, t[l].1);
        assert u[k] == t[m] && u[|s| + l] == t[l];
        assert Adjacent(u[k].0, u[k].1, u[|s| + l].0, u[|s| + l].1) && NewZero(g0, g', u[|s| + l].0, u[|s| + l].1);
      }
    }
  }

  /** The list of a neighbour's press can follow the list of the flood so
      far. */
  lemma OrderAppend(g0: Grid, g: Grid, g': Grid, x: int, y: int, a: int, b: int,
                    s: seq<(int, int)>, t: seq<(int, int)>)
    requires OnlyReveals(g0, g) && OnlyReveals(g, g')
    requires NewZero(g0, g, x, y) && Adjacent(x, y, a, b)
    requires RevealOrder(g0, g, x, y, s) && RevealOrder(g, g', a, b, t)
    ensures RevealOrder(g0, g', x, y, s + t)
  {
    assert (x, y) in s;
    ListedAppend(g0, g, g', s, t);
    LinkedAppend(g0, g, g', x, y, a, b, s, t);
  }

  /** The squares a neighbour's press reveals are reached from the zero
      square the flood started at. */
  lemma OrderStep(g0: Grid, g: Grid, g': Grid, x: int, y: int, a: int, b: int)
    requires OnlyReveals(g0, g) && OnlyReveals(g, g')
    requires NewZero(g0, g, x, y) && Adjacent(x, y, a, b)
    requires Connected(g0, g, x, y) && Connected(g, g', a, b)
    ensures Connected(g0, g', x, y)
  {
    var s: seq<(int, int)> :| RevealOrder(g0, g, x, y, s);
    var t: seq<(int, int)> :| RevealOrder(g, g', a, b, t);
    OrderAppend(g0, g, g', x, y, a, b, s, t);
  }

  /** One more neighbour of the flood's square has been pressed. */
  lemma FloodStep(g0: Grid, g: Grid, g': Grid, x: int, y: int, a: int, b: int, k: nat)
    requires FloodSoFar(g0, g, x, y, k) && k < 8
    requires Adjacent(x, y, a, b) && FloodIndex(a - x, b - y) == k
    requires Spread(g, g', a, b)
    ensures FloodSoFar(g0, g', x, y, k + 1)
  {
    OnlyRevealsTrans(g0, g, g');
    forall i, j | NewlyRevealed(g0, g', i, j) ensures g'[i][j].value.Count? {
      if g[i][j].revealed {
        assert NewlyRevealed(g0, g, i, j);
      } else {
        assert NewlyRevealed(g, g', i, j);
      }
    }
    forall i, j | NewZero(g0, g', i, j) && (i != x || j != y) ensures NeighboursCovered(g', i, j) {
      if g[i][j].revealed {
        assert NewZero(g0, g, i, j);
        NeighboursCoveredMono(g, g', i, j);
      } else {
        assert NewZero(g, g', i, j);
      }
    }
    OrderStep(g0, g, g', x, y, a, b);
    forall p, q | Adjacent(x, y, p, q) && FloodIndex(p - x, q - y) < k + 1 ensures Covered(g', p, q) {
      if FloodIndex(p - x, q - y) < k {
        CoveredMono(g, g', p, q);
      }
    }
  }

  /** All eight neighbours have been pressed: the flood is complete. */
  lemma FloodDone(g0: Grid, g: Grid, x: int, y: int)
    requires FloodSoFar(g0, g, x, y, 8)
    ensures Flood(g0, g, x, y)
  {
    forall i, j | NewZero(g0, g, i, j) ensures NeighboursCovered(g, i, j) {
      if i == x && j == y {
        forall a, b | Adjacent(x, y, a, b) ensures Covered(g, a, b) {
          assert FloodIndex(a - x, b - y) < 8;
        }
      }
    }
  }

  /** A reveal-mode press of a square that is not a mine spreads. */
  lemma PressSpreads(g0: Grid, g1: Grid, x: int, y: int)
    requires PressOutcome(g0, g1, RevealMode, x, y)
    requires InBounds(g0, x, y) ==> g0[x][y].value.Count?
    ensures Spread(g0, g1, x, y)
  {
    if InBounds(g0, x, y) && !g0[x][y].revealed && !g0[x][y].flagged && g0[x][y].value != Count(0) {
      forall i, j | NewlyRevealed(g0, g1, i, j) ensures (i, j) in [(x, y)] {
      }
      assert RevealOrder(g0, g1, x, y, [(x, y)]);
    } else if !InBounds(g0, x, y) || g0[x][y].revealed || g0[x][y].flagged {
      assert RevealOrder(g0, g1, x, y, []);
    }
  }

  /** The step the recursive `press` takes for each neighbour of a zero
      square: the neighbour is not a mine, so its press spreads, and the flood
      advances by one neighbour without hiding any square. */
  lemma FloodAdvance(g0: Grid, g: Grid, g': Grid, x: int, y: int, a: int, b: int, k: nat)
    requires FloodSoFar(g0, g, x, y, k) && k < 8
    requires Adjacent(x, y, a, b) && FloodIndex(a - x, b - y) == k
    requires CountsCorrect(g)
    requires PressOutcome(g, g', RevealMode, a, b)
    ensures FloodSoFar(g0, g', x, y, k + 1)
    ensures Unrevealed(g') <= Unrevealed(g)
  {
    assert g[x][y].value == Count(0) && InBounds(g, x, y);
    ZeroCount(g, x, y);
    if InBounds(g, a, b) {
      assert !IsMined(g[a][b].value);
    }
    PressSpreads(g, g', a, b);
    FloodStep(g0, g, g', x, y, a, b, k);
    OnlyRevealsKeeps(g, g');
  }

  // ---------------------------------------------------------------------
  // The flood reveals exactly the region of (x, y)

  /** Each square of a reveal order is reached from its first square by a
      walk over zero squares of the order. */
  lemma {:induction false} OrderPath(g0: Grid, g1: Grid, x: int, y: int, s: seq<(int, int)>, k: int)
    requires RevealOrder(g0, g1, x, y, s) && 0 <= k < |s|
    ensures exists p :: FloodPath(g0, g1, p) && p[0] == (x, y) && p[|p| - 1] == s[k]
    decreases k
  {
    if k == 0 {
      assert FloodPath(g0, g1, [s[0]]);
    } else {
      assert LinkedAt(g0, g1, s, k);
      var l :| 0 <= l < k && Adjacent(s[k].0, s[k].1, s[l].0, s[l].1) && NewZero(g0, g1, s[l].0, s[l].1);
      OrderPath(g0, g1, x, y, s, l);
      var q :| FloodPath(g0, g1, q) && q[0] == (x, y) && q[|q| - 1] == s[l];
      var p := q + [s[k]];
      forall m | 0 <= m < |p| - 1
        ensures NewZero(g0, g1, p[m].0, p[m].1) && Adjacent(p[m].0, p[m].1, p[m + 1].0, p[m + 1].1)
      {
        if m < |q| - 1 {
          assert p[m] == q[m] && p[m + 1] == q[m + 1];
        } else {
          assert p[m] == s[l] && p[m + 1] == s[k];
        }
      }
      assert FloodPath(g0, g1, p);
    }
  }

  /** Every square a spreading press reveals is reached from (x, y) by a walk
      over zero squares it reveals. */
  lemma FloodConnected(g0: Grid, g1: Grid, x: int, y: int)
    requires Connected(g0, g1, x, y)
    ensures forall i, j :: NewlyRevealed(g0, g1, i, j) ==>
      exists p :: FloodPath(g0, g1, p) && p[0] == (x, y) && p[|p| - 1] == (i, j)
  {
    var s: seq<(int, int)> :| RevealOrder(g0, g1, x, y, s);
    forall i, j | NewlyRevealed(g0, g1, i, j)
      ensures exists p :: FloodPath(g0, g1, p) && p[0] == (x, y) && p[|p| - 1] == (i, j)
    {
      var k :| 0 <= k < |s| && s[k] == (i, j);
      OrderPath(g0, g1, x, y, s, k);
    }
  }

  /** A flood g2 from (x, y) reveals every square on a walk from (x, y) over
      zero squares that another flood g1 revealed. */
  lemma {:induction false} PathReveals(g0: Grid, g1: Grid, g2: Grid, x: int, y: int, p: seq<(int, int)>, k: int)
    requires OnlyReveals(g0, g1) && OnlyReveals(g0, g2) && ZeroClosed(g0, g2) && NewlyRevealed(g0, g2, x, y)
    requires FloodPath(g0, g1, p) && p[0] == (x, y) && 0 <= k < |p|
    ensures NewlyRevealed(g0, g2, p[k].0, p[k].1)
    decreases k
  {
    if k > 0 {
      PathReveals(g0, g1, g2, x, y, p, k - 1);
      var (c, d) := p[k - 1];
      var (a, b) := p[k];
      assert NewZero(g0, g1, c, d) && Adjacent(c, d, a, b);
      assert InBounds(g0, c, d);
      assert NewZero(g0, g2, c, d);
      assert Covered(g2, a, b);
      assert NewlyRevealed(g0, g1, a, b);
      assert InBounds(g0, a, b);
    }
  }

  /** Two floods from the same square reveal the same squares: the flood is
      independent of the order in which neighbours are pressed. */
  lemma FloodUnique(g0: Grid, g1: Grid, g2: Grid, x: int, y: int)
    requires Flood(g0, g1, x, y) && Flood(g0, g2, x, y)
    ensures g1 == g2
  {
    FloodIncluded(g0, g1, g2, x, y);
    FloodIncluded(g0, g2, g1, x, y);
    forall i, j | InBounds(g1, i, j) ensures g1[i][j] == g2[i][j] {
      assert InBounds(g0, i, j) && InBounds(g2, i, j);
      if NewlyRevealed(g0, g1, i, j) {
        assert NewlyRevealed(g0, g2, i, j);
      } else {
        assert !NewlyRevealed(g0, g2, i, j);
      }
    }
    GridsEqual(g1, g2);
  }

  lemma FloodIncluded(g0: Grid, g1: Grid, g2: Grid, x: int, y: int)
    requires Flood(g0, g1, x, y) && Flood(g0, g2, x, y)
    ensures forall i, j :: NewlyRevealed(g0, g1, i, j) ==> NewlyRevealed(g0, g2, i, j)
  {
    FloodConnected(g0, g1, x, y);
    forall i, j | NewlyRevealed(g0, g1, i, j) ensures NewlyRevealed(g0, g2, i, j) {
      var p :| FloodPath(g0, g1, p) && p[0] == (x, y) && p[|p| - 1] == (i, j);
      PathReveals(g0, g1, g2, x, y, p, |p| - 1);
    }
  }

  // ---------------------------------------------------------------------
  // The branches of a press

  lemma OutcomeFlag(g0: Grid, x: int, y: int)
    requires InBounds(g0, x, y) && !g0[x][y].revealed
    ensures PressOutcome(g0, Set(g0, x, y, ToggleFlag(g0[x][y])), FlagMode, x, y)
  {
  }

  lemma OutcomeMine(g0: Grid, g1: Grid, x: int, y: int)
    requires InBounds(g0, x, y) && !g0[x][y].revealed && !g0[x][y].flagged && g0[x][y].value == Mine
    requires Swept(Set(Set(g0, x, y, Reveal(g0[x][y])), x, y, Reveal(g0[x][y]).(value := Detonated)), g1)
    ensures PressOutcome(g0, g1, RevealMode, x, y)
  {
    SetTwice(g0, x, y, Reveal(g0[x][y]), Reveal(g0[x][y]).(value := Detonated));
  }

  lemma OutcomeReveal(g0: Grid, x: int, y: int)
    requires InBounds(g0, x, y) && !g0[x][y].revealed && !g0[x][y].flagged
    requires g0[x][y].value != Mine && g0[x][y].value != Count(0)
    ensures PressOutcome(g0, Set(g0, x, y, Reveal(g0[x][y])), RevealMode, x, y)
  {
  }

  // ---------------------------------------------------------------------
  // Properties of a press

  /** Off the grid, on a revealed square, and on a flagged square in reveal
      mode, a press changes nothing. */
  lemma PressGuards(g0: Grid, g1: Grid, mode: Mode, x: int, y: int)
    requires PressOutcome(g0, g1, mode, x, y)
    requires !InBounds(g0, x, y) || g0[x][y].revealed || (mode == RevealMode && g0[x][y].flagged)
    ensures g1 == g0
  {
  }

  /** The outcome of a press is determined by the grid, the mode and the
      square. */
  lemma PressDetermined(g0: Grid, g1: Grid, g2: Grid, mode: Mode, x: int, y: int)
    requires PressOutcome(g0, g1, mode, x, y) && PressOutcome(g0, g2, mode, x, y)
    ensures g1 == g2
  {
    if InBounds(g0, x, y) && !g0[x][y].revealed && mode == RevealMode && !g0[x][y].flagged {
      if g0[x][y].value == Mine {
        var g := Set(g0, x, y, Reveal(g0[x][y]).(value := Detonated));
        forall i, j | InBounds(g1, i, j) ensures g1[i][j] == g2[i][j] {
          assert InBounds(g, i, j);
        }
        GridsEqual(g1, g2);
      } else if g0[x][y].value == Count(0) {
        FloodUnique(g0, g1, g2, x, y);
      }
    }
  }

  /** In reveal mode a second press of the same square changes nothing. */
  lemma PressTwiceReveal(g0: Grid, g1: Grid, g2: Grid, x: int, y: int)
    requires PressOutcome(g0, g1, RevealMode, x, y) && PressOutcome(g1, g2, RevealMode, x, y)
    ensures g2 == g1
  {
    if InBounds(g0, x, y) && !g0[x][y].revealed && !g0[x][y].flagged {
      if g0[x][y].value == Mine {
        var g := Set(g0, x, y, Reveal(g0[x][y]).(value := Detonated));
        assert InBounds(g, x, y) && g1[x][y] == SweepCell(g[x][y]);
      }
      assert InBounds(g1, x, y) && g1[x][y].revealed;
    }
  }

  /** In flag mode a hidden square's flag is flipped and nothing else
      changes; a second press puts the flag back as it was. */
  lemma PressTwiceFlag(g0: Grid, g1: Grid, g2: Grid, x: int, y: int)
    requires PressOutcome(g0, g1, FlagMode, x, y) && PressOutcome(g1, g2, FlagMode, x, y)
    ensures InBounds(g0, x, y) && !g0[x][y].revealed ==>
      g1[x][y].flagged == !g0[x][y].flagged && g1[x][y].value == g0[x][y].value &&
      (forall i, j :: InBounds(g0, i, j) && (i != x || j != y) ==> g1[i][j] == g0[i][j])
    ensures InBounds(g0, x, y) && !g0[x][y].revealed ==> g2 == Set(g0, x, y, g0[x][y].(mark := Unmarked))
    ensures !InBounds(g0, x, y) || g0[x][y].revealed || g0[x][y].mark == Unmarked ==> g2 == g0
  {
    if InBounds(g0, x, y) && !g0[x][y].revealed {
      ToggleFlagTwice(g0[x][y]);
      SetTwice(g0, x, y, ToggleFlag(g0[x][y]), g0[x][y].(mark := Unmarked));
      if g0[x][y].mark == Unmarked {
        SetSame(g0, x, y);
      }
    }
  }

  /** A press never changes what any square holds, except that the mine
      pressed in reveal mode goes off. */
  lemma PressKeepsValues(g0: Grid, g1: Grid, mode: Mode, x: int, y: int)
    requires PressOutcome(g0, g1, mode, x, y)
    ensures MinesKept(g0, g1)
    ensures forall i, j :: InBounds(g0, i, j) && (i != x || j != y) ==> g1[i][j].value == g0[i][j].value
    ensures InBounds(g0, x, y) ==>
      g1[x][y].value == g0[x][y].value || (g0[x][y].value == Mine && g1[x][y].value == Detonated)
    ensures InBounds(g0, x, y) && g1[x][y].value.Detonated? && !g0[x][y].value.Detonated? ==>
      mode == RevealMode && !g0[x][y].revealed && !g0[x][y].flagged && g0[x][y].value == Mine
  {
    if InBounds(g0, x, y) && !g0[x][y].revealed && mode == RevealMode && !g0[x][y].flagged {
      if g0[x][y].value == Mine {
        var g := Set(g0, x, y, Reveal(g0[x][y]).(value := Detonated));
        assert forall i, j :: InBounds(g0, i, j) ==> InBounds(g, i, j) && g1[i][j] == SweepCell(g[i][j]);
      } else if g0[x][y].value == Count(0) {
        OnlyRevealsKeeps(g0, g1);
      }
    }
  }

  /** A press never reveals a flagged square and never hides a revealed one. */
  lemma PressRevealsOnlyUnflagged(g0: Grid, g1: Grid, mode: Mode, x: int, y: int)
    requires PressOutcome(g0, g1, mode, x, y)
    ensures SameShape(g0, g1)
    ensures forall i, j :: InBounds(g0, i, j) && g0[i][j].revealed ==> g1[i][j].revealed
    ensures forall i, j :: InBounds(g0, i, j) && g0[i][j].flagged && !g0[i][j].revealed ==> !g1[i][j].revealed
    ensures Unrevealed(g1) <= Unrevealed(g0)
  {
    if InBounds(g0, x, y) && !g0[x][y].revealed {
      if mode == FlagMode {
        CountSet(g0, x, y, ToggleFlag(g0[x][y]), IsHidden);
      } else if !g0[x][y].flagged {
        if g0[x][y].value == Mine {
          var g := Set(g0, x, y, Reveal(g0[x][y]).(value := Detonated));
          assert forall i, j :: InBounds(g0, i, j) ==> InBounds(g, i, j) && g1[i][j] == SweepCell(g[i][j]);
          CountSet(g0, x, y, g[x][y], IsHidden);
          CountSame(g, g1, IsHidden);
        } else if g0[x][y].value == Count(0) {
          OnlyRevealsKeeps(g0, g1);
        } else {
          CountSet(g0, x, y, Reveal(g0[x][y]), IsHidden);
        }
      }
    }
  }

  /** Pressing a hidden, unflagged mine in reveal mode: that square is
      revealed and goes off; every other square keeps what it holds, its flag
      and whether it is revealed, and is disabled, a flagged non-mine showing a
      false flag and an unflagged mine showing itself. A mine that went off
      before is left alone. */
  lemma PressMine(g0: Grid, g1: Grid, x: int, y: int)
    requires PressOutcome(g0, g1, RevealMode, x, y)
    requires InBounds(g0, x, y) && !g0[x][y].revealed && !g0[x][y].flagged && g0[x][y].value == Mine
    ensures SameShape(g0, g1)
    ensures g1[x][y].value == Detonated && g1[x][y].revealed && g1[x][y].disabled && !g1[x][y].flagged
    ensures forall i, j :: InBounds(g0, i, j) && (i != x || j != y) ==>
      g1[i][j].value == g0[i][j].value && g1[i][j].flagged == g0[i][j].flagged &&
      g1[i][j].revealed == g0[i][j].revealed
    ensures forall i, j :: InBounds(g0, i, j) && (i != x || j != y) && !g0[i][j].value.Detonated? ==>
      g1[i][j].disabled &&
      (g0[i][j].flagged && !g0[i][j].value.Mine? ==> g1[i][j].mark == FalseFlag) &&
      (!g0[i][j].flagged && g0[i][j].value.Mine? ==> g1[i][j].mark == ExposedMine)
    ensures forall i, j :: InBounds(g0, i, j) && g0[i][j].value.Detonated? ==> g1[i][j] == g0[i][j]
  {
    var g := Set(g0, x, y, Reveal(g0[x][y]).(value := Detonated));
    assert forall i, j :: InBounds(g0, i, j) ==> InBounds(g, i, j) && g1[i][j] == SweepCell(g[i][j]);
  }

  /** Pressing a hidden, unflagged zero square in reveal mode: it is revealed;
      every zero square the call reveals has each neighbour revealed or
      flagged; every square it reveals is reached from (x, y) by a walk over
      zero squares it reveals; it reveals no mine and no flagged square, and changes nothing
      else. */
  lemma PressZero(g0: Grid, g1: Grid, x: int, y: int)
    requires PressOutcome(g0, g1, RevealMode, x, y)
    requires InBounds(g0, x, y) && !g0[x][y].revealed && !g0[x][y].flagged && g0[x][y].value == Count(0)
    ensures SameShape(g0, g1) && g1[x][y] == Reveal(g0[x][y])
    ensures forall i, j, a, b :: NewZero(g0, g1, i, j) && Adjacent(i, j, a, b) && InBounds(g1, a, b) ==>
      g1[a][b].revealed || g1[a][b].flagged
    ensures forall i, j :: NewlyRevealed(g0, g1, i, j) ==>
      exists p :: FloodPath(g0, g1, p) && p[0] == (x, y) && p[|p| - 1] == (i, j)
    ensures forall i, j :: NewlyRevealed(g0, g1, i, j) ==>
      g0[i][j].value.Count? && !g0[i][j].flagged && g1[i][j] == Reveal(g0[i][j])
    ensures forall i, j :: InBounds(g0, i, j) && !NewlyRevealed(g0, g1, i, j) ==> g1[i][j] == g0[i][j]
  {
    FloodConnected(g0, g1, x, y);
    forall i, j, a, b | NewZero(g0, g1, i, j) && Adjacent(i, j, a, b) && InBounds(g1, a, b)
      ensures g1[a][b].revealed || g1[a][b].flagged
    {
      assert NeighboursCovered(g1, i, j);
      assert Covered(g1, a, b);
    }
  }

  /** Pressing a hidden, unflagged square with a positive count in reveal
      mode reveals that square alone. */
  lemma PressPositive(g0: Grid, g1: Grid, x: int, y: int)
    requires PressOutcome(g0, g1, RevealMode, x, y)
    requires InBounds(g0, x, y) && !g0[x][y].revealed && !g0[x][y].flagged
    requires g0[x][y].value.Count? && g0[x][y].value.n > 0
    ensures g1[x][y].revealed && g1[x][y].value == g0[x][y].value
    ensures forall i, j :: InBounds(g0, i, j) && (i != x || j != y) ==> g1[i][j] == g0[i][j]
  {
  }

  /** On a 3 by 3 board without mines, pressing the centre in reveal mode
      reveals all nine squares, each showing 0. */
  lemma FloodEmptyThreeByThree(g0: Grid, g1: Grid)
    requires Shaped(g0, 3, 3) && forall i, j :: InBounds(g0, i, j) ==> g0[i][j] == NewCell()
    requires PressOutcome(g0, g1, RevealMode, 1, 1)
    ensures Shaped(g1, 3, 3)
    ensures forall i, j :: InBounds(g1, i, j) ==> g1[i][j].revealed && g1[i][j].value == Count(0)
  {
    assert InBounds(g0, 1, 1) && Flood(g0, g1, 1, 1);
    assert NewZero(g0, g1, 1, 1);
    forall i, j | InBounds(g1, i, j) ensures g1[i][j].revealed && g1[i][j].value == Count(0) {
      assert InBounds(g0, i, j);
      if i != 1 || j != 1 {
        assert Adjacent(1, 1, i, j) && Covered(g1, i, j);
      }
    }
  }

  /** A column without zero squares stops a walk over zero squares that
      starts to its left: every zero square of the walk lies left of column c,
      and its end lies no further right than c. */
  lemma {:induction false} WalkBlocked(g0: Grid, g1: Grid, p: seq<(int, int)>, c: int, m: int)
    requires OnlyReveals(g0, g1) && FloodPath(g0, g1, p) && p[0].0 < c
    requires forall j :: InBounds(g0, c, j) ==> g0[c][j].value != Count(0)
    requires 0 <= m < |p|
    ensures p[m].0 <= c && (m < |p| - 1 ==> p[m].0 < c)
    decreases m
  {
    if m > 0 {
      WalkBlocked(g0, g1, p, c, m - 1);
      assert NewZero(g0, g1, p[m - 1].0, p[m - 1].1) && Adjacent(p[m - 1].0, p[m - 1].1, p[m].0, p[m].1);
      if m < |p| - 1 {
        var (a, b) := p[m];
        assert NewZero(g0, g1, a, b) && InBounds(g0, a, b);
      }
    }
  }

  /** On the one-row board 0 0 1 M 1 0 0, pressing the left corner reveals
      the three squares left of the mine and nothing else: the zeros right of
      the mine are not connected to the corner. */
  lemma FloodStopsAtCounts(g0: Grid, g1: Grid)
    requires Shaped(g0, 7, 1) && forall i :: 0 <= i < 7 ==> !g0[i][0].revealed && !g0[i][0].flagged
    requires g0[0][0].value == Count(0) && g0[1][0].value == Count(0) && g0[2][0].value == Count(1)
    requires g0[3][0].value == Mine && g0[4][0].value == Count(1)
    requires g0[5][0].value == Count(0) && g0[6][0].value == Count(0)
    requires PressOutcome(g0, g1, RevealMode, 0, 0)
    ensures Shaped(g1, 7, 1)
    ensures forall i :: 0 <= i < 7 ==> (g1[i][0].revealed <==> i <= 2)
  {
    assert InBounds(g0, 0, 0) && Flood(g0, g1, 0, 0);
    assert InBounds(g0, 1, 0) && InBounds(g0, 2, 0);
    assert NewZero(g0, g1, 0, 0) && Covered(g1, 1, 0);
    assert NewZero(g0, g1, 1, 0) && Covered(g1, 2, 0);
    FloodRightOfMine(g0, g1);
  }

  lemma FloodRightOfMine(g0: Grid, g1: Grid)
    requires Shaped(g0, 7, 1) && g0[2][0].value == Count(1)
    requires Flood(g0, g1, 0, 0)
    ensures forall i :: 3 <= i < 7 ==> !NewlyRevealed(g0, g1, i, 0)
  {
    FloodConnected(g0, g1, 0, 0);
    forall i | 3 <= i < 7 ensures !NewlyRevealed(g0, g1, i, 0) {
      if NewlyRevealed(g0, g1, i, 0) {
        var p :| FloodPath(g0, g1, p) && p[0] == (0, 0) && p[|p| - 1] == (i, 0);
        WalkBlocked(g0, g1, p, 2, |p| - 1);
        assert false;
      }
    }
  }
}
