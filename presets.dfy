// Board size and mine-count presets (`Board.__get_size` and
// `Board.__get_num_mines`).

module Presets {

  /** `__get_size`: "S" is 9 by 9, "M" is 16 by 16, anything else 16 by 30. */
  function GetSize(size: string): (dims: (nat, nat))
    ensures dims.0 > 0 && dims.1 > 0
  {
    if size == "S" then (9, 9)
    else if size == "M" then (16, 16)
    else (16, 30)
  }

  /** The mine density in percent: "E" 12, "M" 16, anything else 21. */
  function DensityPercent(difficulty: string): (pct: nat)
    ensures 12 <= pct <= 21
  {
    if difficulty == "E" then 12
    else if difficulty == "M" then 16
    else 21
  }

  /** `__get_num_mines`: the integer part of the area times the density. */
  function NumMines(difficulty: string, sizex: nat, sizey: nat): (mines: nat)
    ensures mines * 100 <= sizex * sizey * DensityPercent(difficulty) < (mines + 1) * 100
    ensures mines <= sizex * sizey
  {
    sizex * sizey * DensityPercent(difficulty) / 100
  }

  /** A harder difficulty never places fewer mines on the same board. */
  lemma NumMinesMonotone(sizex: nat, sizey: nat)
    ensures NumMines("E", sizex, sizey) <= NumMines("M", sizex, sizey) <= NumMines("H", sizex, sizey)
  {
    var area := sizex * sizey;
    assert area * 12 <= area * 16 <= area * 21;
  }

  /** The three board sizes and the nine preset mine counts. The source's
      floating point products truncate to the same nine numbers (for example
      480 * 0.21 = 100.8); that agreement is argued, not proved, since the
      model has no floating point. */
  lemma PresetTable()
    ensures GetSize("S") == (9, 9) && GetSize("M") == (16, 16)
    ensures forall size :: size != "S" && size != "M" ==> GetSize(size) == (16, 30)
    ensures forall d :: d != "E" && d != "M" ==> DensityPercent(d) == 21
    ensures NumMines("E", 9, 9) == 9 && NumMines("M", 9, 9) == 12 && NumMines("H", 9, 9) == 17
    ensures NumMines("E", 16, 16) == 30 && NumMines("M", 16, 16) == 40 && NumMines("H", 16, 16) == 53
    ensures NumMines("E", 16, 30) == 57 && NumMines("M", 16, 30) == 76 && NumMines("H", 16, 30) == 100
  {
  }
}
