/** The board engine of connectfour.py: gravity drops with the IllegalMove
    error, the winner field, the legal-move list, the next-state identifier
    and the text rendering. */
module ConnectFour {
  import opened Wrappers
  import opened Grids
  import opened WinScan
  import opened Identifiers

  type Column = c: int | 0 <= c < Columns

  /** The top row, which legal_moves inspects. */
  const Top: int := Rows - 1

  /** The ConnectFour object: its grid and its winner field. */
  datatype Board = Board(grid: Grid, winner: Option<Cell>)

  /** IllegalMove is the module's exception; IndexError is numpy's, raised for
      a column outside -COLUMNS .. COLUMNS-1. */
  datatype Error = IllegalMove | IndexError

  predicate ValidBoard(b: Board) {
    IsBoardGrid(b.grid)
  }

  /** Gravity: no empty cell lies below an occupied one. */
  predicate Settled(g: Grid)
    requires IsBoardGrid(g)
  {
    forall r1, r2, c :: 0 <= r1 <= r2 < Rows && 0 <= c < Columns && g[r1][c] == Empty ==> g[r2][c] == Empty
  }

  /** The constructor: an empty grid and no winner. */
  function NewBoard(): (b: Board)
    ensures ValidBoard(b) && Settled(b.grid) && b.winner == None
    ensures forall r, c :: InBounds(Rows, Columns, r, c) ==> b.grid[r][c] == Empty
  {
    Board(Filled(Rows, Columns, Empty), None)
  }

  /** Column c has at least one empty cell. */
  predicate HasRoom(g: Grid, c: Column)
    requires IsBoardGrid(g)
  {
    exists r :: 0 <= r < Rows && g[r][c] == Empty
  }

  /** The first empty cell of column c at or above row r, scanning upwards. */
  function LowestEmptyFrom(g: Grid, c: Column, r: int): (o: Option<int>)
    requires IsBoardGrid(g) && 0 <= r <= Rows
    ensures o.Some? ==> r <= o.value < Rows && g[o.value][c] == Empty
                        && forall i :: r <= i < o.value ==> g[i][c] != Empty
    ensures o.None? ==> forall i :: r <= i < Rows ==> g[i][c] != Empty
    decreases Rows - r
  {
    if r == Rows then None
    else if g[r][c] == Empty then Some(r)
    else LowestEmptyFrom(g, c, r + 1)
  }

  /** The row a disc dropped into column c lands in, if the column has room. */
  function LowestEmpty(g: Grid, c: Column): (o: Option<int>)
    requires IsBoardGrid(g)
    ensures o.Some? <==> HasRoom(g, c)
    ensures o.Some? ==> 0 <= o.value < Rows && g[o.value][c] == Empty
                        && forall i :: 0 <= i < o.value ==> g[i][c] != Empty
  {
    LowestEmptyFrom(g, c, 0)
  }

  /** The grid with x written at (r, c). */
  function Put(g: Grid, r: int, c: int, x: Cell): Grid
    requires IsBoardGrid(g) && InBounds(Rows, Columns, r, c)
  {
    g[r := g[r][c := x]]
  }

  lemma PutCells(g: Grid, r: int, c: int, x: Cell)
    requires IsBoardGrid(g) && InBounds(Rows, Columns, r, c)
    ensures IsBoardGrid(Put(g, r, c, x)) && Put(g, r, c, x)[r][c] == x
    ensures forall r', c' :: InBounds(Rows, Columns, r', c') && (r', c') != (r, c) ==>
              Put(g, r, c, x)[r'][c'] == g[r'][c']
  {
  }

  /** add_disc: the disc lands in the lowest empty cell of the column; the winner
      field becomes colour when that disc completes four in a row and otherwise
      keeps its value, whatever it was. A full column raises IllegalMove. */
  function AddDisc(b: Board, column: Column, colour: Cell): (res: Result<Board, Error>)
    requires ValidBoard(b)
    ensures res.Success? <==> HasRoom(b.grid, column)
    ensures res.Failure? ==> res.error == IllegalMove
    ensures res.Success? ==>
              var row := LowestEmpty(b.grid, column).value;
              ValidBoard(res.value)
              && res.value.grid == Put(b.grid, row, column, colour)
              && res.value.winner == (if colour != Empty && FourInARowThrough(res.value.grid, row, column, colour)
                                      then Some(colour) else b.winner)
  {
    match LowestEmpty(b.grid, column)
    case None => Failure(IllegalMove)
    case Some(row) =>
      var g := Put(b.grid, row, column, colour);
      PutCells(b.grid, row, column, colour);
      CheckWinnerAtIff(g, row, column);
      Success(Board(g, if CheckWinnerAt(g, row, column) then Some(colour) else b.winner))
  }

  /** A successful drop writes colour into the lowest empty cell, which on a settled
      board is the bottom of the empty run, changes no other cell and keeps the
      board settled. */
  lemma AddDiscPlacesDisc(b: Board, column: Column, colour: Cell)
    requires ValidBoard(b) && Settled(b.grid) && HasRoom(b.grid, column)
    ensures AddDisc(b, column, colour).Success?
    ensures var g' := AddDisc(b, column, colour).value.grid;
            var row := LowestEmpty(b.grid, column).value;
            IsBoardGrid(g') && Settled(g')
            && g'[row][column] == colour
            && (forall i :: 0 <= i < row ==> b.grid[i][column] != Empty)
            && (forall i :: row <= i < Rows ==> b.grid[i][column] == Empty)
            && (forall r, c :: InBounds(Rows, Columns, r, c) && (r, c) != (row, column) ==> g'[r][c] == b.grid[r][c])
  {
    var g := b.grid;
    var row := LowestEmpty(g, column).value;
    PutCells(g, row, column, colour);
  }

  /** On a settled board a column has room exactly when its top cell is empty. */
  lemma RoomIffTopEmpty(g: Grid, c: Column)
    requires IsBoardGrid(g) && Settled(g)
    ensures HasRoom(g, c) <==> g[Top][c] == Empty
  {
  }

  /** add_disc with the column as numpy indexes it: -COLUMNS .. -1 wrap to the
      same column counted from the right, anything else outside the grid raises
      IndexError before the grid is touched. */
  function DropAt(b: Board, move: int, colour: Cell): (res: Result<Board, Error>)
    requires ValidBoard(b)
    ensures 0 <= move < Columns ==> res == AddDisc(b, move, colour)
    ensures -Columns <= move < 0 ==> res == AddDisc(b, move + Columns, colour)
    ensures (move < -Columns || Columns <= move) ==> res == Failure(IndexError)
  {
    if -Columns <= move < Columns then AddDisc(b, (move + Columns) % Columns, colour)
    else Failure(IndexError)
  }

  /** After winning, the board still accepts a disc completing four for the other
      colour, and the winner field changes: nothing guards it. */
  lemma WinnerCanBeOverwritten()
    ensures var e := [Empty, Empty, Empty, Empty, Empty, Empty, Empty];
            var g := [[White, White, White, White, Empty, Empty, Empty],
                      [Red, Red, Red, Empty, Empty, Empty, Empty], e, e, e, e];
            var res := AddDisc(Board(g, Some(White)), 3, Red);
            IsBoardGrid(g) && Settled(g) && res.Success? && res.value.winner == Some(Red)
  {
    var e := [Empty, Empty, Empty, Empty, Empty, Empty, Empty];
    var g := [[White, White, White, White, Empty, Empty, Empty],
              [Red, Red, Red, Empty, Empty, Empty, Empty], e, e, e, e];
    assert g[0][3] != Empty && g[1][3] == Empty;
    assert LowestEmpty(g, 3) == Some(1);
    var g' := Put(g, 1, 3, Red);
    assert g'[1] == [Red, Red, Red, Red, Empty, Empty, Empty];
    assert g' == [g[0], g'[1], e, e, e, e];
    RedCompletesRow(g');
  }

  /** The grid of the example above once red's disc is in: four red in row 1. */
  lemma RedCompletesRow(g': Grid)
    requires var e := [Empty, Empty, Empty, Empty, Empty, Empty, Empty];
             g' == [[White, White, White, White, Empty, Empty, Empty],
                    [Red, Red, Red, Red, Empty, Empty, Empty], e, e, e, e]
    ensures IsBoardGrid(g') && FourInARowThrough(g', 1, 3, Red)
  {
    DirectionsAreSteps();
    assert Directions[1] == Direction(0, 1);
    assert FourFrom(g', 1, 0, Direction(0, 1), Red) by {
      forall i | 0 <= i < 4
        ensures CellIs(g', Advance(1, 0, i), Advance(0, 1, i), Red)
      {
      }
    }
    assert FourAround(g', 1, 3, Directions[1], 3, Red);
  }

  // legal_moves

  /** The columns from c upwards whose top cell is occupied (full = true) or
      empty (full = false), in ascending order. */
  function ColumnsFrom(g: Grid, c: int, full: bool): (cs: seq<int>)
    requires IsBoardGrid(g) && 0 <= c <= Columns
    ensures forall i :: 0 <= i < |cs| ==> c <= cs[i] < Columns
    ensures forall i, j :: 0 <= i < j < |cs| ==> cs[i] < cs[j]
    ensures forall x :: x in cs <==> c <= x < Columns && ((g[Top][x] != Empty) == full)
    decreases Columns - c
  {
    if c == Columns then []
    else if (g[Top][c] != Empty) == full then [c] + ColumnsFrom(g, c + 1, full)
    else ColumnsFrom(g, c + 1, full)
  }

  /** legal_moves as written: the comprehension keeps the columns whose top cell
      is NOT empty. */
  function LegalMovesAsWritten(b: Board): seq<int>
    requires ValidBoard(b)
  {
    ColumnsFrom(b.grid, 0, true)
  }

  /** legal_moves as its doc-comment describes it: the columns with room. */
  function LegalMoves(b: Board): seq<int>
    requires ValidBoard(b)
  {
    ColumnsFrom(b.grid, 0, false)
  }

  /** On a settled board legal_moves as written lists, in ascending order, exactly
      the columns where add_disc raises IllegalMove. */
  lemma LegalMovesAsWrittenAreFull(b: Board, colour: Cell)
    requires ValidBoard(b) && Settled(b.grid)
    ensures forall i, j :: 0 <= i < j < |LegalMovesAsWritten(b)| ==> LegalMovesAsWritten(b)[i] < LegalMovesAsWritten(b)[j]
    ensures forall c: Column :: c in LegalMovesAsWritten(b) <==> AddDisc(b, c, colour) == Failure(IllegalMove)
  {
    forall c: Column
      ensures c in LegalMovesAsWritten(b) <==> AddDisc(b, c, colour) == Failure(IllegalMove)
    {
      RoomIffTopEmpty(b.grid, c);
    }
  }

  /** On a settled board the corrected list holds, in ascending order, exactly the
      columns where add_disc succeeds. */
  lemma LegalMovesHaveRoom(b: Board, colour: Cell)
    requires ValidBoard(b) && Settled(b.grid)
    ensures forall i, j :: 0 <= i < j < |LegalMoves(b)| ==> LegalMoves(b)[i] < LegalMoves(b)[j]
    ensures forall c: Column :: c in LegalMoves(b) <==> AddDisc(b, c, colour).Success?
  {
    forall c: Column
      ensures c in LegalMoves(b) <==> AddDisc(b, c, colour).Success?
    {
      RoomIffTopEmpty(b.grid, c);
    }
  }

  /** Counterexample: on the new, empty board legal_moves as written is empty,
      while every column has room. */
  lemma LegalMovesInverted()
    ensures LegalMovesAsWritten(NewBoard()) == []
    ensures LegalMoves(NewBoard()) == [0, 1, 2, 3, 4, 5, 6]
  {
    var g := NewBoard().grid;
    NewBoardTopOpen();
    ColumnsOfOpenTop(g, 0);
    AllColumns();
  }

  lemma NewBoardTopOpen()
    ensures forall x :: 0 <= x < Columns ==> NewBoard().grid[Top][x] == Empty
  {
    forall x | 0 <= x < Columns ensures NewBoard().grid[Top][x] == Empty {
      assert InBounds(Rows, Columns, Top, x);
    }
  }

  lemma AllColumns()
    ensures seq(Columns, i => i) == [0, 1, 2, 3, 4, 5, 6]
  {
    var s := seq(Columns, i => i);
    assert |s| == 7 && s[0] == 0 && s[1] == 1 && s[2] == 2 && s[3] == 3 && s[4] == 4 && s[5] == 5 && s[6] == 6;
  }

  /** When every top cell is empty, no column is listed as full and every column
      from c on is listed as open. */
  lemma {:induction false} ColumnsOfOpenTop(g: Grid, c: int)
    requires IsBoardGrid(g) && 0 <= c <= Columns
    requires forall x :: 0 <= x < Columns ==> g[Top][x] == Empty
    ensures ColumnsFrom(g, c, true) == []
    ensures ColumnsFrom(g, c, false) == seq(Columns - c, i => c + i)
    decreases Columns - c
  {
    if c < Columns {
      ColumnsOfOpenTop(g, c + 1);
      assert seq(Columns - c, i => c + i) == [c] + seq(Columns - (c + 1), i => c + 1 + i);
    }
  }

  // next_state_identifier

  /** next_state_identifier: the present identifier plus the weight of the landing
      cell times the colour's code; a full column raises IllegalMove. */
  function NextStateIdentifier(b: Board, column: Column, colour: Cell): (res: Result<int, Error>)
    requires ValidBoard(b)
    ensures res.Success? <==> AddDisc(b, column, colour).Success?
    ensures res.Failure? ==> res == Failure(IllegalMove)
    ensures res.Success? ==> res.value == StateIdentifier(AddDisc(b, column, colour).value.grid)
  {
    match LowestEmpty(b.grid, column)
    case None => Failure(IllegalMove)
    case Some(row) =>
      StateIdentifierOfDrop(b.grid, row, column, colour);
      Success(StateIdentifier(b.grid) + HashWeight(row, column) * Code(colour))
  }

  // __str__

  /** _entry_to_character. */
  function EntryToCharacter(x: Cell): char {
    match x
    case Empty => '.'
    case White => 'W'
    case Red => 'R'
  }

  lemma EntryToCharacterInjective(x: Cell, y: Cell)
    ensures EntryToCharacter(x) == EntryToCharacter(y) <==> x == y
    ensures EntryToCharacter(x) in {'.', 'W', 'R'}
  {
  }

  /** One grid row as text, one character per cell. */
  function RowText(row: seq<Cell>): (s: string)
    ensures |s| == |row|
    ensures forall i :: 0 <= i < |row| ==> s[i] == EntryToCharacter(row[i])
  {
    seq(|row|, i requires 0 <= i < |row| => EntryToCharacter(row[i]))
  }

  /** Rows n-1 down to 0, one line each, joined by newlines. */
  function RenderRows(g: Grid, n: int): string
    requires IsBoardGrid(g) && 1 <= n <= Rows
  {
    if n == 1 then RowText(g[0]) else RowText(g[n - 1]) + "\n" + RenderRows(g, n - 1)
  }

  /** __str__: the top row first. */
  function Render(b: Board): string
    requires ValidBoard(b)
  {
    RenderRows(b.grid, Rows)
  }

  const LineWidth: int := Columns + 1

  /** Index in the rendering of character c of line i. */
  function Pos(i: int, c: int): int {
    i * LineWidth + c
  }

  /** Line i of the rendering of rows n-1 .. 0 shows row n-1-i, and lines are
      separated by single newlines. */
  lemma {:induction false} RenderRowsLayout(g: Grid, n: int)
    requires IsBoardGrid(g) && 1 <= n <= Rows
    ensures |RenderRows(g, n)| == n * LineWidth - 1
    ensures forall i, c :: 0 <= i < n && 0 <= c < Columns ==>
              RenderRows(g, n)[Pos(i, c)] == EntryToCharacter(g[n - 1 - i][c])
    ensures forall i :: 0 <= i < n - 1 ==> RenderRows(g, n)[Pos(i, Columns)] == '\n'
  {
    if n > 1 {
      RenderRowsLayout(g, n - 1);
      var s := RenderRows(g, n);
      var rest := RenderRows(g, n - 1);
      assert s == RowText(g[n - 1]) + "\n" + rest;
      forall i, c | 1 <= i < n && 0 <= c < Columns
        ensures s[Pos(i, c)] == EntryToCharacter(g[n - 1 - i][c])
      {
        assert Pos(i, c) == LineWidth + Pos(i - 1, c);
      }
      forall i | 1 <= i < n - 1
        ensures s[Pos(i, Columns)] == '\n'
      {
        assert Pos(i, Columns) == LineWidth + Pos(i - 1, Columns);
      }
    }
  }

  /** __str__ yields ROWS lines of COLUMNS characters, top row first, separated by
      newlines, showing '.', 'W' and 'R'. */
  lemma RenderLayout(b: Board)
    requires ValidBoard(b)
    ensures |Render(b)| == Rows * LineWidth - 1
    ensures forall r, c :: InBounds(Rows, Columns, r, c) ==>
              Render(b)[Pos(Rows - 1 - r, c)] == EntryToCharacter(b.grid[r][c])
    ensures forall i :: 0 <= i < Rows - 1 ==> Render(b)[Pos(i, Columns)] == '\n'
  {
    RenderRowsLayout(b.grid, Rows);
    forall r, c | InBounds(Rows, Columns, r, c)
      ensures Render(b)[Pos(Rows - 1 - r, c)] == EntryToCharacter(b.grid[r][c])
    {
      var i := Rows - 1 - r;
      assert Rows - 1 - i == r;
    }
  }

  /** Different grids render differently. */
  lemma RenderInjective(b1: Board, b2: Board)
    requires ValidBoard(b1) && ValidBoard(b2)
    ensures Render(b1) == Render(b2) <==> b1.grid == b2.grid
  {
    if Render(b1) == Render(b2) {
      RenderLayout(b1);
      RenderLayout(b2);
      forall r | 0 <= r < Rows
        ensures b1.grid[r] == b2.grid[r]
      {
        forall c | 0 <= c < Columns
          ensures b1.grid[r][c] == b2.grid[r][c]
        {
          EntryToCharacterInjective(b1.grid[r][c], b2.grid[r][c]);
        }
      }
    }
  }
}
