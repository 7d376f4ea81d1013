/** The concrete vectors of test_count_open_positions on a 4 x 4 grid. */
module OpenLineVectors {
  import opened Grids
  import opened OpenLines

  /** Bucket n's share of the window from (r, c) in the j-th direction. */
  function At(g: Grid, player: Cell, r: int, c: int, j: int, n: int): nat
    requires Shaped(g, 4, 4) && 0 <= j < 4
  {
    Hit(g, 4, 4, player, Window(r, c, Directions[j]), n)
  }

  /** On a 4 x 4 grid only ten windows fit: four upward from the bottom row, four
      rightward from the left column and one per diagonal. Their entries: */
  function Profile(g: Grid): (p: seq<seq<Cell>>)
    requires Shaped(g, 4, 4)
    ensures |p| == 10
  {
    [Entries(g, 4, 4, Window(0, 0, Directions[0])), Entries(g, 4, 4, Window(0, 1, Directions[0])),
     Entries(g, 4, 4, Window(0, 2, Directions[0])), Entries(g, 4, 4, Window(0, 3, Directions[0])),
     Entries(g, 4, 4, Window(0, 0, Directions[1])), Entries(g, 4, 4, Window(1, 0, Directions[1])),
     Entries(g, 4, 4, Window(2, 0, Directions[1])), Entries(g, 4, 4, Window(3, 0, Directions[1])),
     Entries(g, 4, 4, Window(0, 0, Directions[2])), Entries(g, 4, 4, Window(0, 3, Directions[3]))]
  }

  function FittingHits(p: seq<seq<Cell>>, player: Cell, n: int): nat
    requires |p| == 10
  {
    Score(p[0], player, n) + Score(p[1], player, n) + Score(p[2], player, n) + Score(p[3], player, n)
    + Score(p[4], player, n) + Score(p[5], player, n) + Score(p[6], player, n) + Score(p[7], player, n)
    + Score(p[8], player, n) + Score(p[9], player, n)
  }

  lemma ProfileScores(g: Grid, player: Cell, n: int)
    requires Shaped(g, 4, 4)
    ensures FittingHits(Profile(g), player, n) ==
      At(g, player, 0, 0, 0, n) + At(g, player, 0, 1, 0, n) + At(g, player, 0, 2, 0, n) + At(g, player, 0, 3, 0, n)
      + At(g, player, 0, 0, 1, n) + At(g, player, 1, 0, 1, n) + At(g, player, 2, 0, 1, n) + At(g, player, 3, 0, 1, n)
      + At(g, player, 0, 0, 2, n) + At(g, player, 0, 3, 3, n)
  {
  }

  lemma RowSteps(g: Grid, player: Cell, r: int, n: int)
    requires Shaped(g, 4, 4)
    ensures RowCount(g, 4, 4, player, r, 4, n) == CellCount(g, 4, 4, player, r, 0, n) + CellCount(g, 4, 4, player, r, 1, n)
      + CellCount(g, 4, 4, player, r, 2, n) + CellCount(g, 4, 4, player, r, 3, n)
  {
    assert RowCount(g, 4, 4, player, r, 1, n) == CellCount(g, 4, 4, player, r, 0, n);
    assert RowCount(g, 4, 4, player, r, 2, n) == RowCount(g, 4, 4, player, r, 1, n) + CellCount(g, 4, 4, player, r, 1, n);
    assert RowCount(g, 4, 4, player, r, 3, n) == RowCount(g, 4, 4, player, r, 2, n) + CellCount(g, 4, 4, player, r, 2, n);
    assert RowCount(g, 4, 4, player, r, 4, n) == RowCount(g, 4, 4, player, r, 3, n) + CellCount(g, 4, 4, player, r, 3, n);
  }

  lemma BottomRow(g: Grid, player: Cell, n: int)
    requires Shaped(g, 4, 4)
    ensures RowCount(g, 4, 4, player, 0, 4, n) ==
      At(g, player, 0, 0, 0, n) + At(g, player, 0, 0, 1, n) + At(g, player, 0, 0, 2, n) + At(g, player, 0, 1, 0, n)
      + At(g, player, 0, 2, 0, n) + At(g, player, 0, 3, 0, n) + At(g, player, 0, 3, 3, n)
  {
    RowSteps(g, player, 0, n);
  }

  lemma UpperRow(g: Grid, player: Cell, r: int, n: int)
    requires Shaped(g, 4, 4) && 1 <= r < 4
    ensures RowCount(g, 4, 4, player, r, 4, n) == At(g, player, r, 0, 1, n)
  {
    RowSteps(g, player, r, n);
  }

  /** Every bucket of count_open_positions on a 4 x 4 grid comes from the ten fitting
      windows. */
  lemma FourByFour(g: Grid, player: Cell, n: int)
    requires Shaped(g, 4, 4) && 0 <= n < 5
    ensures CountOpenPositions(g, 4, 4, player)[n] == FittingHits(Profile(g), player, n)
  {
    CountIsGridCount(g, 4, 4, player, n);
    ProfileScores(g, player, n);
    BottomRow(g, player, n);
    UpperRow(g, player, 1, n);
    UpperRow(g, player, 2, n);
    UpperRow(g, player, 3, n);
    assert GridCount(g, 4, 4, player, 1, n) == RowCount(g, 4, 4, player, 0, 4, n);
    assert GridCount(g, 4, 4, player, 2, n) == GridCount(g, 4, 4, player, 1, n) + RowCount(g, 4, 4, player, 1, 4, n);
    assert GridCount(g, 4, 4, player, 3, n) == GridCount(g, 4, 4, player, 2, n) + RowCount(g, 4, 4, player, 2, 4, n);
    assert GridCount(g, 4, 4, player, 4, n) == GridCount(g, 4, 4, player, 3, n) + RowCount(g, 4, 4, player, 3, 4, n);
  }

  /** test_count_open_positions, first check: the empty grid, counted for WHITE: bucket n is
      [10, 0, 0, 0, 0][n], all ten windows in bucket 0. */
  lemma EmptyVector(g: Grid, n: int)
    requires g == Filled(4, 4, Empty) && 0 <= n < 5
    ensures CountOpenPositions(g, 4, 4, White)[n] == [10, 0, 0, 0, 0][n]
  {
    EmptyGridCounts(g, 4, 4, White, n);
  }

  /** The grid after a WHITE disc at (0, 0). */
  function CornerGrid(): Grid {
    [[White, Empty, Empty, Empty],
     [Empty, Empty, Empty, Empty],
     [Empty, Empty, Empty, Empty],
     [Empty, Empty, Empty, Empty]]
  }

  /** Then a RED disc at (0, 1). */
  function NeighbourGrid(): Grid {
    [[White, Red, Empty, Empty],
     [Empty, Empty, Empty, Empty],
     [Empty, Empty, Empty, Empty],
     [Empty, Empty, Empty, Empty]]
  }

  /** Then the whole of column 1 RED. */
  function ColumnGrid(): Grid {
    [[White, Red, Empty, Empty],
     [Empty, Red, Empty, Empty],
     [Empty, Red, Empty, Empty],
     [Empty, Red, Empty, Empty]]
  }

  /** The entries of the ten fitting windows of CornerGrid. */
  function CornerProfile(): seq<seq<Cell>> {
    [[White, Empty, Empty, Empty], [Empty, Empty, Empty, Empty], [Empty, Empty, Empty, Empty], [Empty, Empty, Empty, Empty],
     [White, Empty, Empty, Empty], [Empty, Empty, Empty, Empty], [Empty, Empty, Empty, Empty], [Empty, Empty, Empty, Empty],
     [White, Empty, Empty, Empty], [Empty, Empty, Empty, Empty]]
  }

  lemma CornerEntries(g: Grid)
    requires g == CornerGrid()
    ensures Profile(g) == CornerProfile()
  {
  }

  lemma CornerScores()
    ensures FittingHits(CornerProfile(), White, 0) == 7
    ensures FittingHits(CornerProfile(), White, 1) == 3
    ensures FittingHits(CornerProfile(), White, 2) == 0
    ensures FittingHits(CornerProfile(), White, 3) == 0
    ensures FittingHits(CornerProfile(), White, 4) == 0
  {
  }

  /** test_count_open_positions, second check: WHITE at (0, 0), counted for WHITE: bucket n is [7, 3, 0, 0, 0][n]. */
  lemma CornerVector(g: Grid, n: int)
    requires g == CornerGrid() && 0 <= n < 5
    ensures CountOpenPositions(g, 4, 4, White)[n] == [7, 3, 0, 0, 0][n]
  {
    FourByFour(g, White, n);
    CornerEntries(g);
    CornerScores();
  }

  /** The entries of the ten fitting windows of NeighbourGrid. */
  function NeighbourProfile(): seq<seq<Cell>> {
    [[White, Empty, Empty, Empty], [Red, Empty, Empty, Empty], [Empty, Empty, Empty, Empty], [Empty, Empty, Empty, Empty],
     [White, Red, Empty, Empty], [Empty, Empty, Empty, Empty], [Empty, Empty, Empty, Empty], [Empty, Empty, Empty, Empty],
     [White, Empty, Empty, Empty], [Empty, Empty, Empty, Empty]]
  }

  lemma NeighbourEntries(g: Grid)
    requires g == NeighbourGrid()
    ensures Profile(g) == NeighbourProfile()
  {
  }

  lemma NeighbourScores()
    ensures FittingHits(NeighbourProfile(), Red, 0) == 6
    ensures FittingHits(NeighbourProfile(), Red, 1) == 1
    ensures FittingHits(NeighbourProfile(), Red, 2) == 0
    ensures FittingHits(NeighbourProfile(), Red, 3) == 0
    ensures FittingHits(NeighbourProfile(), Red, 4) == 0
  {
  }

  /** test_count_open_positions, third check: RED added at (0, 1), counted for RED: bucket n is [6, 1, 0, 0, 0][n]. */
  lemma NeighbourVector(g: Grid, n: int)
    requires g == NeighbourGrid() && 0 <= n < 5
    ensures CountOpenPositions(g, 4, 4, Red)[n] == [6, 1, 0, 0, 0][n]
  {
    FourByFour(g, Red, n);
    NeighbourEntries(g);
    NeighbourScores();
  }

  /** The entries of the ten fitting windows of ColumnGrid. */
  function ColumnProfile(): seq<seq<Cell>> {
    [[White, Empty, Empty, Empty], [Red, Red, Red, Red], [Empty, Empty, Empty, Empty], [Empty, Empty, Empty, Empty],
     [White, Red, Empty, Empty], [Empty, Red, Empty, Empty], [Empty, Red, Empty, Empty], [Empty, Red, Empty, Empty],
     [White, Red, Empty, Empty], [Empty, Empty, Red, Empty]]
  }

  lemma ColumnEntries(g: Grid)
    requires g == ColumnGrid()
    ensures Profile(g) == ColumnProfile()
  {
  }

  lemma ColumnScores()
    ensures FittingHits(ColumnProfile(), Red, 0) == 2
    ensures FittingHits(ColumnProfile(), Red, 1) == 4
    ensures FittingHits(ColumnProfile(), Red, 2) == 0
    ensures FittingHits(ColumnProfile(), Red, 3) == 0
    ensures FittingHits(ColumnProfile(), Red, 4) == 1
  {
  }

  /** test_count_open_positions, fourth check: column 1 filled with RED, counted for RED: bucket n is [2, 4, 0, 0, 1][n]. */
  lemma ColumnVector(g: Grid, n: int)
    requires g == ColumnGrid() && 0 <= n < 5
    ensures CountOpenPositions(g, 4, 4, Red)[n] == [2, 4, 0, 0, 1][n]
  {
    FourByFour(g, Red, n);
    ColumnEntries(g);
    ColumnScores();
  }
}
