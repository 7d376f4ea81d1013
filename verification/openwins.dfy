/** The open-line counter against the board's win test: on a 6 x 7 board the
    fourth bucket of count_open_positions is nonzero exactly when the player has
    four in a row somewhere, the condition _check_winner_at_location looks for. */
module OpenLineWins {
  import opened Grids
  import opened WinScan
  import opened OpenLines

  // The counter's dimensions come in as parameters nr and nc that the grid's shape
  // ties to Rows and Columns; naming the constants directly makes the solver expand
  // the 6 x 7 window list.

  /** A complete window is the same thing as four in a row from its start cell. */
  lemma CompleteIsFourFrom(g: Grid, nr: nat, nc: nat, player: Cell, w: Window)
    requires IsBoardGrid(g) && Shaped(g, nr, nc) && player != Empty && w.dir in Directions
    ensures IsStep(w.dir)
    ensures Complete(g, nr, nc, player, w) <==> FourFrom(g, w.row, w.col, w.dir, player)
  {
    DirectionsAreSteps();
    if Complete(g, nr, nc, player, w) {
      FitsInGrid(nr, nc, w);
      var e := Entries(g, nr, nc, w);
      forall i | 0 <= i < 4
        ensures CellIs(g, Advance(w.row, w.dir.dr, i), Advance(w.col, w.dir.dc, i), player)
      {
        assert e[i] == g[CellRow(w, i)][CellCol(w, i)];
      }
    }
    if FourFrom(g, w.row, w.col, w.dir, player) {
      assert CellIs(g, Advance(w.row, w.dir.dr, 0), Advance(w.col, w.dir.dc, 0), player);
      assert CellIs(g, Advance(w.row, w.dir.dr, 3), Advance(w.col, w.dir.dc, 3), player);
      AdvanceIsProduct(w.row, w.dir.dr, 3);
      AdvanceIsProduct(w.col, w.dir.dc, 3);
      assert WellPlaced(nr, nc, w) && Fits(nr, nc, w);
      FitsInGrid(nr, nc, w);
      assert CellIs(g, Advance(w.row, w.dir.dr, 1), Advance(w.col, w.dir.dc, 1), player);
      assert CellIs(g, Advance(w.row, w.dir.dr, 2), Advance(w.col, w.dir.dc, 2), player);
    }
  }

  /** Some window of the counter is four of the player's discs. */
  ghost predicate SomeComplete(g: Grid, nr: nat, nc: nat, player: Cell)
    requires Shaped(g, nr, nc)
  {
    exists w :: Complete(g, nr, nc, player, w)
  }

  /** Some cell of the board is one of four of the player's discs in a line. */
  ghost predicate HasFour(g: Grid, player: Cell)
    requires IsBoardGrid(g)
  {
    exists r, c :: InBounds(Rows, Columns, r, c) && FourInARowThrough(g, r, c, player)
  }

  /** _check_winner_at_location reports the player at some cell. */
  ghost predicate ScanFindsWin(g: Grid, player: Cell)
    requires IsBoardGrid(g)
  {
    exists r, c :: InBounds(Rows, Columns, r, c) && g[r][c] == player && CheckWinnerAt(g, r, c)
  }

  lemma CompleteIffFour(g: Grid, nr: nat, nc: nat, player: Cell)
    requires IsBoardGrid(g) && Shaped(g, nr, nc) && player != Empty
    ensures SomeComplete(g, nr, nc, player) <==> HasFour(g, player)
  {
    DirectionsAreSteps();
    if w :| Complete(g, nr, nc, player, w) {
      CompleteIsFourFrom(g, nr, nc, player, w);
      var j :| 0 <= j < |Directions| && Directions[j] == w.dir;
      assert FourAround(g, w.row, w.col, Directions[j], 0, player);
      assert InBounds(Rows, Columns, w.row, w.col) && FourInARowThrough(g, w.row, w.col, player);
    }
    if HasFour(g, player) {
      var r, c :| InBounds(Rows, Columns, r, c) && FourInARowThrough(g, r, c, player);
      var j, k :| 0 <= j < |Directions| && 0 <= k < 4 && FourAround(g, r, c, Directions[j], k, player);
      var d := Directions[j];
      var w := Window(Advance(r, d.dr, -k), Advance(c, d.dc, -k), d);
      CompleteIsFourFrom(g, nr, nc, player, w);
      assert Complete(g, nr, nc, player, w);
    }
  }

  /** Bucket 4 of the counter is nonzero exactly when some cell of the board is one
      of four of the player's discs in a straight line. */
  lemma FourBucketIsWin(g: Grid, nr: nat, nc: nat, player: Cell)
    requires IsBoardGrid(g) && Shaped(g, nr, nc) && player != Empty
    ensures CountOpenPositions(g, nr, nc, player)[4] > 0 <==> HasFour(g, player)
  {
    FourBucket(g, nr, nc, player);
    CompleteIffFour(g, nr, nc, player);
  }

  /** A cell on a line of four player discs holds the player's disc. */
  lemma FourThroughHoldsPlayer(g: Grid, r: int, c: int, player: Cell)
    requires IsBoardGrid(g) && InBounds(Rows, Columns, r, c) && FourInARowThrough(g, r, c, player)
    ensures g[r][c] == player
  {
    DirectionsAreSteps();
    var j, k :| 0 <= j < |Directions| && 0 <= k < 4 && FourAround(g, r, c, Directions[j], k, player);
    var d := Directions[j];
    var r0, c0 := Advance(r, d.dr, -k), Advance(c, d.dc, -k);
    assert FourFrom(g, r0, c0, d, player);
    assert CellIs(g, Advance(r0, d.dr, k), Advance(c0, d.dc, k), player);
    ShiftAdvance(r, d.dr, k, k);
    ShiftAdvance(c, d.dc, k, k);
  }

  /** Four in a row through some cell is what the board scan reports at some cell. */
  lemma FourIffScan(g: Grid, player: Cell)
    requires IsBoardGrid(g) && player != Empty
    ensures HasFour(g, player) <==> ScanFindsWin(g, player)
  {
    if HasFour(g, player) {
      var r, c :| InBounds(Rows, Columns, r, c) && FourInARowThrough(g, r, c, player);
      FourThroughHoldsPlayer(g, r, c, player);
      CheckWinnerAtIff(g, r, c);
    }
    if ScanFindsWin(g, player) {
      var r, c :| InBounds(Rows, Columns, r, c) && g[r][c] == player && CheckWinnerAt(g, r, c);
      CheckWinnerAtIff(g, r, c);
    }
  }

  /** Hence the counter's bucket 4 agrees with the board scan run at every cell. */
  lemma FourBucketIsScanWin(g: Grid, nr: nat, nc: nat, player: Cell)
    requires IsBoardGrid(g) && Shaped(g, nr, nc) && player != Empty
    ensures CountOpenPositions(g, nr, nc, player)[4] > 0 <==> ScanFindsWin(g, player)
  {
    FourBucketIsWin(g, nr, nc, player);
    FourIffScan(g, player);
  }
}
