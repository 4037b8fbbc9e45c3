/** The play-field: a 480 x 480 pixel area divided into 20 x 20 cells, the four
    headings, the boundary test and the forced turn taken at a wall. */
module Geometry {

  const GameWidth: int := 480
  const ScreenHeight: int := 480
  const CellWidth: int := 20
  const CellHeight: int := 20

  datatype Direction = Up | Down | Left | Right

  function Opposite(d: Direction): Direction {
    match d
    case Up => Down
    case Down => Up
    case Left => Right
    case Right => Left
  }

  /** Horizontal and vertical displacement, in pixels, of one step in direction d. */
  function StepX(d: Direction): int {
    match d
    case Left => -CellWidth
    case Right => CellWidth
    case _ => 0
  }

  function StepY(d: Direction): int {
    match d
    case Up => -CellHeight
    case Down => CellHeight
    case _ => 0
  }

  /** A cell-aligned position whose whole cell lies inside the play-field. */
  predicate OnGrid(x: int, y: int) {
    && 0 <= x <= GameWidth - CellWidth && x % CellWidth == 0
    && 0 <= y <= ScreenHeight - CellHeight && y % CellHeight == 0
  }

  /** CanMove: the boundary test for a head at (hx, hy). For a head on the grid
      it holds exactly when the cell one step away is still on the grid. */
  function CanMove(hx: int, hy: int, d: Direction): (r: bool)
    ensures OnGrid(hx, hy) ==> (r <==> OnGrid(hx + StepX(d), hy + StepY(d)))
  {
    match d
    case Up => hy > 0
    case Down => hy + CellHeight < ScreenHeight
    case Left => hx > 0
    case Right => hx + CellWidth < GameWidth
  }

  /** The fixed table of TurnSnake: the heading tried first, then second. */
  function TurnPreference(d: Direction): (Direction, Direction) {
    match d
    case Up => (Right, Left)
    case Down => (Left, Right)
    case Left => (Down, Up)
    case Right => (Up, Down)
  }

  /** The heading TurnSnake leaves behind: the first entry of the table that
      can move, or the old heading when neither can. */
  function Turned(hx: int, hy: int, d: Direction): (r: Direction)
    ensures r == TurnPreference(d).0 || r == TurnPreference(d).1 || r == d
    ensures CanMove(hx, hy, TurnPreference(d).0) ==> r == TurnPreference(d).0
    ensures r == d <==> !CanMove(hx, hy, TurnPreference(d).0) && !CanMove(hx, hy, TurnPreference(d).1)
    ensures r == d || CanMove(hx, hy, r)
    ensures r != d ==> StepX(r) * StepX(d) == 0 && StepY(r) * StepY(d) == 0
  {
    var (first, second) := TurnPreference(d);
    if CanMove(hx, hy, first) then first
    else if CanMove(hx, hy, second) then second
    else d
  }

  /** The heading MoveSnake steps in: the current one unless it is blocked,
      in which case TurnSnake picks one. */
  function NextHeading(hx: int, hy: int, d: Direction): (r: Direction)
    ensures CanMove(hx, hy, d) ==> r == d
    ensures r == d || r == TurnPreference(d).0 || r == TurnPreference(d).1
    ensures r != Opposite(d)
  {
    if CanMove(hx, hy, d) then d else Turned(hx, hy, d)
  }

  /** On the grid, a blocked heading always has a way out: the field is wider
      and taller than one cell, so one of the two perpendicular headings moves. */
  lemma TurnedUnblocks(hx: int, hy: int, d: Direction)
    requires OnGrid(hx, hy) && !CanMove(hx, hy, d)
    ensures CanMove(hx, hy, Turned(hx, hy, d))
    ensures Turned(hx, hy, d) == TurnPreference(d).0 || Turned(hx, hy, d) == TurnPreference(d).1
  {
  }

  /** A head on the grid stays on the grid after one step of MoveSnake. */
  lemma StepStaysOnGrid(hx: int, hy: int, d: Direction)
    ensures OnGrid(hx, hy) ==>
      var n := NextHeading(hx, hy, d); OnGrid(hx + StepX(n), hy + StepY(n))
  {
    if OnGrid(hx, hy) && !CanMove(hx, hy, d) {
      TurnedUnblocks(hx, hy, d);
    }
  }
}
