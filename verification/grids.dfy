/** Cells, rectangular grids and line directions, shared by the board engine
    (connectfour.py) and the open-line counter (connectfourutils.py). */
module Grids {

  /** Board dimensions; row 0 is the bottom row. */
  const Rows: int := 6
  const Columns: int := 7

  /** A grid entry. The source stores EMPTY, WHITE and RED as the codes 0, 1 and 2. */
  datatype Cell = Empty | White | Red

  /** A grid indexed as g[row][column]. */
  type Grid = seq<seq<Cell>>

  predicate Shaped(g: Grid, rows: nat, cols: nat) {
    |g| == rows && forall r :: 0 <= r < rows ==> |g[r]| == cols
  }

  predicate IsBoardGrid(g: Grid) {
    Shaped(g, Rows, Columns)
  }

  predicate InBounds(rows: nat, cols: nat, r: int, c: int) {
    0 <= r < rows && 0 <= c < cols
  }

  /** The rows-by-cols grid holding x everywhere. */
  function Filled(rows: nat, cols: nat, x: Cell): (g: Grid)
    ensures Shaped(g, rows, cols)
    ensures forall r, c :: InBounds(rows, cols, r, c) ==> g[r][c] == x
  {
    seq(rows, _ => seq(cols, _ => x))
  }

  /** A line direction as (row step, column step). */
  datatype Direction = Direction(dr: int, dc: int)

  /** The four undirected line directions both scans use: vertical,
      horizontal, rising diagonal, falling diagonal. */
  const Directions: seq<Direction> :=
    [Direction(1, 0), Direction(0, 1), Direction(1, 1), Direction(1, -1)]

  predicate IsStep(d: Direction) {
    -1 <= d.dr <= 1 && -1 <= d.dc <= 1 && (d.dr != 0 || d.dc != 0)
  }

  function Reverse(d: Direction): Direction {
    Direction(-d.dr, -d.dc)
  }

  lemma DirectionsAreSteps()
    ensures |Directions| == 4
    ensures forall j :: 0 <= j < |Directions| ==> IsStep(Directions[j]) && IsStep(Reverse(Directions[j]))
  {
  }

  /** x + i * step for a unit step, written by cases so that no product is needed. */
  function Advance(x: int, step: int, i: int): int
    requires -1 <= step <= 1
  {
    if step == 1 then x + i else if step == -1 then x - i else x
  }

  lemma AdvanceIsProduct(x: int, step: int, i: int)
    requires -1 <= step <= 1
    ensures Advance(x, step, i) == x + i * step
  {
  }
}
