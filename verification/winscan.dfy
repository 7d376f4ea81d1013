/** Win detection around one cell (connectfour.py, _check_winner_at_location):
    the in-bounds run scan the doc-comment describes, a reference definition of
    "part of four in a row", their equivalence, and the scan as the code
    actually behaves under numpy's negative-index wraparound. */
module WinScan {
  import opened Wrappers
  import opened Grids

  /** The cell (r, c) lies in the board and holds colour. */
  predicate CellIs(g: Grid, r: int, c: int, colour: Cell)
    requires IsBoardGrid(g)
  {
    InBounds(Rows, Columns, r, c) && g[r][c] == colour
  }

  /** Steps left before a walk from (r, c) along d leaves the board. */
  function Reach(r: int, c: int, d: Direction): int {
    if d.dr == 1 then Rows - r
    else if d.dr == -1 then r + 1
    else if d.dc == 1 then Columns - c
    else c + 1
  }

  /** Number of consecutive cells of colour met when walking from (r, c) along d,
      not counting (r, c) itself; the board edge ends the walk. */
  function Run(g: Grid, colour: Cell, r: int, c: int, d: Direction): nat
    requires IsBoardGrid(g) && IsStep(d)
    decreases Reach(r, c, d)
  {
    var r', c' := r + d.dr, c + d.dc;
    if CellIs(g, r', c', colour) then 1 + Run(g, colour, r', c', d) else 0
  }

  /** Length of the line through (r, c) along d, counted both ways and including (r, c). */
  function RunThrough(g: Grid, r: int, c: int, d: Direction): nat
    requires IsBoardGrid(g) && InBounds(Rows, Columns, r, c) && IsStep(d)
  {
    var colour := g[r][c];
    1 + Run(g, colour, r, c, d) + Run(g, colour, r, c, Reverse(d))
  }

  /** _check_winner_at_location with the scan the doc-comment describes. */
  predicate CheckWinnerAt(g: Grid, r: int, c: int)
    requires IsBoardGrid(g) && InBounds(Rows, Columns, r, c)
  {
    DirectionsAreSteps();
    g[r][c] != Empty
    && exists j :: 0 <= j < |Directions| && RunThrough(g, r, c, Directions[j]) >= 4
  }

  /** Reference: the four cells starting at (r0, c0) along d lie in the board and hold colour. */
  predicate FourFrom(g: Grid, r0: int, c0: int, d: Direction, colour: Cell)
    requires IsBoardGrid(g) && IsStep(d)
  {
    forall i :: 0 <= i < 4 ==> CellIs(g, Advance(r0, d.dr, i), Advance(c0, d.dc, i), colour)
  }

  /** Reference: (r, c) is one of four cells of colour in a straight line. */
  predicate FourInARowThrough(g: Grid, r: int, c: int, colour: Cell)
    requires IsBoardGrid(g)
  {
    DirectionsAreSteps();
    exists j, k :: 0 <= j < |Directions| && 0 <= k < 4 && FourAround(g, r, c, Directions[j], k, colour)
  }

  /** The window of four along d that holds (r, c) as its k-th cell is all colour. */
  predicate FourAround(g: Grid, r: int, c: int, d: Direction, k: int, colour: Cell)
    requires IsBoardGrid(g) && IsStep(d)
  {
    FourFrom(g, Advance(r, d.dr, -k), Advance(c, d.dc, -k), d, colour)
  }

  /** The run is exactly the maximal stretch of colour along d. */
  lemma RunCells(g: Grid, colour: Cell, r: int, c: int, d: Direction)
    requires IsBoardGrid(g) && IsStep(d)
    ensures forall i :: 1 <= i <= Run(g, colour, r, c, d) ==>
              CellIs(g, Advance(r, d.dr, i), Advance(c, d.dc, i), colour)
    ensures var n := Run(g, colour, r, c, d) + 1;
              !CellIs(g, Advance(r, d.dr, n), Advance(c, d.dc, n), colour)
  {
    RunHolds(g, colour, r, c, d);
    RunStops(g, colour, r, c, d);
  }

  /** Every cell the run counts holds colour. */
  lemma {:induction false} RunHolds(g: Grid, colour: Cell, r: int, c: int, d: Direction)
    requires IsBoardGrid(g) && IsStep(d)
    ensures forall i :: 1 <= i <= Run(g, colour, r, c, d) ==>
              CellIs(g, Advance(r, d.dr, i), Advance(c, d.dc, i), colour)
    decreases Reach(r, c, d)
  {
    var r', c' := r + d.dr, c + d.dc;
    if CellIs(g, r', c', colour) {
      RunHolds(g, colour, r', c', d);
      forall i | 2 <= i <= Run(g, colour, r, c, d)
        ensures CellIs(g, Advance(r, d.dr, i), Advance(c, d.dc, i), colour)
      {
        assert Advance(r', d.dr, i - 1) == Advance(r, d.dr, i);
        assert Advance(c', d.dc, i - 1) == Advance(c, d.dc, i);
      }
    }
  }

  /** The cell just past the run does not hold colour. */
  lemma {:induction false} RunStops(g: Grid, colour: Cell, r: int, c: int, d: Direction)
    requires IsBoardGrid(g) && IsStep(d)
    ensures var n := Run(g, colour, r, c, d) + 1;
              !CellIs(g, Advance(r, d.dr, n), Advance(c, d.dc, n), colour)
    decreases Reach(r, c, d)
  {
    var r', c' := r + d.dr, c + d.dc;
    if CellIs(g, r', c', colour) {
      RunStops(g, colour, r', c', d);
      var n := Run(g, colour, r, c, d) + 1;
      assert Advance(r', d.dr, n - 1) == Advance(r, d.dr, n);
      assert Advance(c', d.dc, n - 1) == Advance(c, d.dc, n);
    }
  }

  /** The run reaches m exactly when the first m cells along d hold colour. */
  lemma RunAtLeast(g: Grid, colour: Cell, r: int, c: int, d: Direction, m: nat)
    requires IsBoardGrid(g) && IsStep(d)
    ensures Run(g, colour, r, c, d) >= m <==>
            forall i :: 1 <= i <= m ==> CellIs(g, Advance(r, d.dr, i), Advance(c, d.dc, i), colour)
  {
    RunCells(g, colour, r, c, d);
  }

  /** Stepping back k along d is stepping forward k along the reverse direction. */
  lemma AdvanceReverse(x: int, step: int, k: int)
    requires -1 <= step <= 1
    ensures Advance(x, -step, k) == Advance(x, step, -k)
  {
  }

  /** The i-th cell of the run along d holds colour. */
  lemma RunCell(g: Grid, colour: Cell, r: int, c: int, d: Direction, i: int)
    requires IsBoardGrid(g) && IsStep(d)
    requires 1 <= i <= Run(g, colour, r, c, d)
    ensures CellIs(g, Advance(r, d.dr, i), Advance(c, d.dc, i), colour)
  {
    RunCells(g, colour, r, c, d);
  }

  /** A line of at least four through (r, c) along d yields a window of four holding (r, c). */
  lemma LongRunGivesWindow(g: Grid, r: int, c: int, d: Direction) returns (k: int)
    requires IsBoardGrid(g) && InBounds(Rows, Columns, r, c) && IsStep(d)
    requires RunThrough(g, r, c, d) >= 4
    ensures 0 <= k < 4 && FourAround(g, r, c, d, k, g[r][c])
  {
    var x := g[r][c];
    var b := Run(g, x, r, c, Reverse(d));
    k := if b < 3 then b else 3;
    var r0, c0 := Advance(r, d.dr, -k), Advance(c, d.dc, -k);
    forall i | 0 <= i < 4
      ensures CellIs(g, Advance(r0, d.dr, i), Advance(c0, d.dc, i), x)
    {
      WindowCell(g, r, c, d, k, i);
    }
  }

  lemma WindowCell(g: Grid, r: int, c: int, d: Direction, k: int, i: int)
    requires IsBoardGrid(g) && InBounds(Rows, Columns, r, c) && IsStep(d)
    requires RunThrough(g, r, c, d) >= 4
    requires var b := Run(g, g[r][c], r, c, Reverse(d)); k == if b < 3 then b else 3
    requires 0 <= i < 4
    ensures CellIs(g, Advance(Advance(r, d.dr, -k), d.dr, i), Advance(Advance(c, d.dc, -k), d.dc, i), g[r][c])
  {
    if i < k {
      BackCell(g, r, c, d, k - i);
      assert -(k - i) == i - k;
    } else if i > k {
      assert i - k <= Run(g, g[r][c], r, c, d);
      RunCell(g, g[r][c], r, c, d, i - k);
    } else {
      assert Advance(r, d.dr, i - k) == r && Advance(c, d.dc, i - k) == c;
    }
    assert CellIs(g, Advance(r, d.dr, i - k), Advance(c, d.dc, i - k), g[r][c]);
    ShiftAdvance(r, d.dr, k, i);
    ShiftAdvance(c, d.dc, k, i);
  }

  lemma ShiftAdvance(x: int, step: int, k: int, i: int)
    requires -1 <= step <= 1
    ensures Advance(Advance(x, step, -k), step, i) == Advance(x, step, i - k)
  {
  }

  /** The m-th cell behind (r, c) along d belongs to the reverse run. */
  lemma BackCell(g: Grid, r: int, c: int, d: Direction, m: int)
    requires IsBoardGrid(g) && InBounds(Rows, Columns, r, c) && IsStep(d)
    requires 1 <= m <= Run(g, g[r][c], r, c, Reverse(d))
    ensures CellIs(g, Advance(r, d.dr, -m), Advance(c, d.dc, -m), g[r][c])
  {
    AdvanceReverse(r, d.dr, m);
    AdvanceReverse(c, d.dc, m);
    RunCell(g, g[r][c], r, c, Reverse(d), m);
  }

  /** A window of four holding (r, c) along d makes the line through (r, c) at least four long. */
  lemma WindowGivesLongRun(g: Grid, r: int, c: int, d: Direction, k: int)
    requires IsBoardGrid(g) && InBounds(Rows, Columns, r, c) && IsStep(d)
    requires 0 <= k < 4 && FourAround(g, r, c, d, k, g[r][c])
    ensures RunThrough(g, r, c, d) >= 4
  {
    var x := g[r][c];
    var r0, c0 := Advance(r, d.dr, -k), Advance(c, d.dc, -k);
    var e := Reverse(d);
    forall i | 1 <= i <= k
      ensures CellIs(g, Advance(r, e.dr, i), Advance(c, e.dc, i), x)
    {
      AdvanceReverse(r, d.dr, i);
      AdvanceReverse(c, d.dc, i);
      assert Advance(r0, d.dr, k - i) == Advance(r, e.dr, i);
      assert Advance(c0, d.dc, k - i) == Advance(c, e.dc, i);
    }
    RunAtLeast(g, x, r, c, e, k);
    forall i | 1 <= i <= 3 - k
      ensures CellIs(g, Advance(r, d.dr, i), Advance(c, d.dc, i), x)
    {
      assert Advance(r0, d.dr, k + i) == Advance(r, d.dr, i);
      assert Advance(c0, d.dc, k + i) == Advance(c, d.dc, i);
    }
    RunAtLeast(g, x, r, c, d, 3 - k);
  }

  /** One direction: the line through (r, c) is at least four long exactly when some
      window of four along that direction holds (r, c) and is all one colour. */
  lemma DirectionWin(g: Grid, r: int, c: int, d: Direction)
    requires IsBoardGrid(g) && InBounds(Rows, Columns, r, c) && IsStep(d)
    ensures RunThrough(g, r, c, d) >= 4 <==> exists k :: 0 <= k < 4 && FourAround(g, r, c, d, k, g[r][c])
  {
    if RunThrough(g, r, c, d) >= 4 {
      var k := LongRunGivesWindow(g, r, c, d);
    }
    if exists k :: 0 <= k < 4 && FourAround(g, r, c, d, k, g[r][c]) {
      var k :| 0 <= k < 4 && FourAround(g, r, c, d, k, g[r][c]);
      WindowGivesLongRun(g, r, c, d, k);
    }
  }

  /** The scan reports a win exactly when the occupied cell (r, c) is part of four in a row. */
  lemma CheckWinnerAtIff(g: Grid, r: int, c: int)
    requires IsBoardGrid(g) && InBounds(Rows, Columns, r, c)
    ensures CheckWinnerAt(g, r, c) <==> g[r][c] != Empty && FourInARowThrough(g, r, c, g[r][c])
  {
    DirectionsAreSteps();
    forall j | 0 <= j < |Directions|
      ensures RunThrough(g, r, c, Directions[j]) >= 4 <==>
              exists k :: 0 <= k < 4 && FourAround(g, r, c, Directions[j], k, g[r][c])
    {
      DirectionWin(g, r, c, Directions[j]);
    }
  }

  // The scan as written reads self._grid[x_pos, y_pos] and stops only on IndexError.
  // numpy accepts indices -Rows..Rows-1 and -Columns..Columns-1, wrapping negative ones
  // to the far edge, so a walk that leaves the board on the left or bottom continues
  // on the opposite side.

  /** numpy's grid[r, c]: None stands for IndexError. */
  function NumpyCell(g: Grid, r: int, c: int): Option<Cell>
    requires IsBoardGrid(g)
  {
    if -Rows <= r < Rows && -Columns <= c < Columns
    then Some(g[(r + Rows) % Rows][(c + Columns) % Columns])
    else None
  }

  /** Steps left before a walk along d raises IndexError. */
  function NumpyReach(r: int, c: int, d: Direction): int {
    if d.dr == 1 then Rows - r
    else if d.dr == -1 then r + Rows + 1
    else if d.dc == 1 then Columns - c
    else c + Columns + 1
  }

  /** The while-loop of the scan as written, for one sense of one direction. */
  function RunAsWritten(g: Grid, colour: Cell, r: int, c: int, d: Direction): nat
    requires IsBoardGrid(g) && IsStep(d)
    decreases NumpyReach(r, c, d)
  {
    var r', c' := r + d.dr, c + d.dc;
    match NumpyCell(g, r', c')
    case None => 0
    case Some(x) => if x == colour then 1 + RunAsWritten(g, colour, r', c', d) else 0
  }

  /** _check_winner_at_location as written, with numpy's index wraparound. The
      location is the raw index add_disc passes on, so it may be negative. */
  predicate CheckWinnerAtAsWritten(g: Grid, r: int, c: int)
    requires IsBoardGrid(g) && NumpyCell(g, r, c).Some?
  {
    DirectionsAreSteps();
    var x := NumpyCell(g, r, c).value;
    x != Empty
    && exists j :: 0 <= j < |Directions|
         && 1 + RunAsWritten(g, x, r, c, Directions[j]) + RunAsWritten(g, x, r, c, Reverse(Directions[j])) >= 4
  }

  /** Bottom row W W . . . W W, the rest empty: the last disc dropped into column 0. */
  function WrapGrid(): (g: Grid)
    ensures IsBoardGrid(g)
  {
    var e := [Empty, Empty, Empty, Empty, Empty, Empty, Empty];
    [[White, White, Empty, Empty, Empty, White, White], e, e, e, e, e]
  }

  /** Counterexample, first half: the scan as written sees columns 6 and 5 to the
      left of column 0 and reports four in a row. */
  lemma WraparoundFakesWin(g: Grid)
    requires g == WrapGrid()
    ensures IsBoardGrid(g) && CheckWinnerAtAsWritten(g, 0, 0)
  {
    DirectionsAreSteps();
    WrapRuns(g);
    AsWrittenWitness(g, 0, 0, 1);
  }

  /** One direction whose two walks as written add up to a line of four is enough. */
  lemma AsWrittenWitness(g: Grid, r: int, c: int, j: int)
    requires IsBoardGrid(g) && NumpyCell(g, r, c).Some? && NumpyCell(g, r, c).value != Empty
    requires 0 <= j < |Directions| && IsStep(Directions[j])
    requires var x := NumpyCell(g, r, c).value;
             1 + RunAsWritten(g, x, r, c, Directions[j]) + RunAsWritten(g, x, r, c, Reverse(Directions[j])) >= 4
    ensures CheckWinnerAtAsWritten(g, r, c)
  {
  }

  /** The two walks from the bottom-left cell of the counterexample, as written. */
  lemma WrapRuns(g: Grid)
    requires g == WrapGrid()
    ensures IsBoardGrid(g) && g[0][0] == White && IsStep(Directions[1])
    ensures RunAsWritten(g, White, 0, 0, Directions[1]) == 1 && RunAsWritten(g, White, 0, 0, Reverse(Directions[1])) == 2
  {
    DirectionsAreSteps();
    var h := Direction(0, 1);
    assert Directions[1] == h;
    var l := Reverse(h);
    assert l == Direction(0, -1);
    assert NumpyCell(g, 0, 2) == Some(Empty);
    assert RunAsWritten(g, White, 0, 1, h) == 0;
    assert NumpyCell(g, 0, 1) == Some(White);
    assert NumpyCell(g, 0, -3) == Some(Empty);
    assert RunAsWritten(g, White, 0, -2, l) == 0;
    assert NumpyCell(g, 0, -2) == Some(White);
    assert RunAsWritten(g, White, 0, -1, l) == 1;
    assert NumpyCell(g, 0, -1) == Some(White);
  }

  /** Counterexample, second half: the same cell is in no four in a row, which the
      in-bounds scan reports correctly. */
  lemma WraparoundGridHasNoFour(g: Grid)
    requires g == WrapGrid()
    ensures IsBoardGrid(g) && !CheckWinnerAt(g, 0, 0)
    ensures !FourInARowThrough(g, 0, 0, White)
  {
    DirectionsAreSteps();
    assert Run(g, White, 0, 0, Direction(1, 0)) == 0;
    assert Run(g, White, 0, 0, Direction(-1, 0)) == 0;
    assert Run(g, White, 0, 1, Direction(0, 1)) == 0;
    assert Run(g, White, 0, 0, Direction(0, 1)) == 1;
    assert Run(g, White, 0, 0, Direction(0, -1)) == 0;
    assert Run(g, White, 0, 0, Direction(1, 1)) == 0;
    assert Run(g, White, 0, 0, Direction(-1, -1)) == 0;
    assert Run(g, White, 0, 0, Direction(1, -1)) == 0;
    assert Run(g, White, 0, 0, Direction(-1, 1)) == 0;
    forall j | 0 <= j < |Directions|
      ensures RunThrough(g, 0, 0, Directions[j]) < 4
    {
      assert j == 0 || j == 1 || j == 2 || j == 3;
    }
    CheckWinnerAtIff(g, 0, 0);
  }

  /** Bottom row W W W . . . W, the rest empty: add_disc(-1, WHITE) has just put
      the last disc into column 6 and scans from the raw location (0, -1). */
  function NegativeColumnGrid(): (g: Grid)
    ensures IsBoardGrid(g)
  {
    var e := [Empty, Empty, Empty, Empty, Empty, Empty, Empty];
    [[White, White, White, Empty, Empty, Empty, White], e, e, e, e, e]
  }

  /** Counterexample, first half: from column -1 the walk right reads columns 0,
      1 and 2, and the scan as written reports four in a row. */
  lemma NegativeColumnFakesWin(g: Grid)
    requires g == NegativeColumnGrid()
    ensures IsBoardGrid(g) && NumpyCell(g, 0, -1) == Some(White) && CheckWinnerAtAsWritten(g, 0, -1)
  {
    DirectionsAreSteps();
    NegativeColumnRuns(g);
    AsWrittenWitness(g, 0, -1, 1);
  }

  /** The two walks from the raw location (0, -1), as written. */
  lemma NegativeColumnRuns(g: Grid)
    requires g == NegativeColumnGrid()
    ensures IsBoardGrid(g) && NumpyCell(g, 0, -1) == Some(White) && IsStep(Directions[1])
    ensures RunAsWritten(g, White, 0, -1, Directions[1]) == 3 && RunAsWritten(g, White, 0, -1, Reverse(Directions[1])) == 0
  {
    DirectionsAreSteps();
    var h := Direction(0, 1);
    assert Directions[1] == h;
    var l := Reverse(h);
    assert l == Direction(0, -1);
    assert NumpyCell(g, 0, 3) == Some(Empty);
    assert RunAsWritten(g, White, 0, 2, h) == 0;
    assert NumpyCell(g, 0, 2) == Some(White);
    assert RunAsWritten(g, White, 0, 1, h) == 1;
    assert NumpyCell(g, 0, 1) == Some(White);
    assert RunAsWritten(g, White, 0, 0, h) == 2;
    assert NumpyCell(g, 0, 0) == Some(White);
    assert NumpyCell(g, 0, -2) == Some(Empty);
  }

  /** Counterexample, second half: the cell the disc landed in, (0, 6), is in no
      four in a row, which the in-bounds scan reports correctly. */
  lemma NegativeColumnGridHasNoFour(g: Grid)
    requires g == NegativeColumnGrid()
    ensures IsBoardGrid(g) && !CheckWinnerAt(g, 0, 6)
    ensures !FourInARowThrough(g, 0, 6, White)
  {
    DirectionsAreSteps();
    assert Run(g, White, 0, 6, Direction(1, 0)) == 0;
    assert Run(g, White, 0, 6, Direction(-1, 0)) == 0;
    assert Run(g, White, 0, 6, Direction(0, 1)) == 0;
    assert Run(g, White, 0, 6, Direction(0, -1)) == 0;
    assert Run(g, White, 0, 6, Direction(1, 1)) == 0;
    assert Run(g, White, 0, 6, Direction(-1, -1)) == 0;
    assert Run(g, White, 0, 6, Direction(1, -1)) == 0;
    assert Run(g, White, 0, 6, Direction(-1, 1)) == 0;
    forall j | 0 <= j < |Directions|
      ensures RunThrough(g, 0, 6, Directions[j]) < 4
    {
      assert j == 0 || j == 1 || j == 2 || j == 3;
    }
    CheckWinnerAtIff(g, 0, 6);
  }
}
