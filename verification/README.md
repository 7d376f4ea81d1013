# Connect Four: board engine, open-line counter and match loop

A Dafny model of the core of swiffo/Connect-Four, with proofs about it:

- **Board engine** (`connectfour.py`). A 6 × 7 grid with row 0 at the bottom and a winner field.
  - `add_disc` drops a disc into the lowest empty cell, or raises `IllegalMove` on a full column.
  - numpy's column indexing is modelled too: -7..-1 wrap and other values raise `IndexError`.
  - The win scan checks the four directions through the new disc.
  - `legal_moves`, `state_identifier` and `next_state_identifier` are modelled.
  - `__str__` with `_entry_to_character`.
- **Open-line counter** (`connectfourutils.py`). `count_open_positions` buckets every in-grid window of four cells by how many of the player's discs it holds. It skips windows that hold an opponent disc. `_count_element` and the test vectors of `test_count_open_positions` are included.
- **Match loop** (`connectfourgame.py`). `ConnectFourMatch.play` runs up to ROWS × COLUMNS plies, white first, with the reward constants.
  - Each player is an abstract strategy.
  - Every `propose_move` and `receive_reward` call is recorded as an event in a trace.

Modules, one per file:

- `Wrappers`: `Option` and `Result`.
- `Grids`: cells, grid shape, the four scan directions.
- `WinScan`: the win scan, both in bounds and as written with numpy's wraparound.
- `Identifiers`: the base-3 weighted sum and the `int64` bound.
- `ConnectFour`: the board.
- `OpenLines`: `count_open_positions`.
- `OpenLineVectors`: the test vectors.
- `OpenLineWins`: the link between bucket 4 and the win scan.
- `Match`: `play`.

The model follows the code:

- The state identifier is the sum of entry code × 3^(row + col·ROWS) over the grid (connectfour.py:93).
- `add_disc` assigns the winner whenever the new disc completes four in a row (connectfour.py:81-82), also after a winner is set (`ConnectFour.WinnerCanBeOverwritten`).
- numpy wraps a column in -7..-1 to the same column counted from the right, which raises `IllegalMove` when full like any other, and a column outside -7..6 raises `IndexError` (connectfour.py:79-80, `ConnectFour.DropAt`). The docstring of `IllegalMove` (connectfour.py:182) counts a non-existing column as an illegal move; the code does not.
- `play` does not catch that `IndexError` (connectfourgame.py:50-52). The model records it as the ending `Crash`, with no rewards, where the docstring of `IllegalMove` would have the mover charged REWARD_ILLEGAL_MOVE (`Match.EndsOnFailure`).

## Model

| member | source | states |
|---|---|---|
| Grids.DirectionsAreSteps | connectfour.py:139 | the four scan directions (1,0), (0,1), (1,1), (1,-1) and their reverses are unit steps |
| WinScan.RunCells | connectfour.py:146-157 | the cells a run counts all hold the colour, and the cell just past the run does not |
| WinScan.RunAtLeast | connectfour.py:146-157 | a run is at least m long exactly when the next m cells along the direction hold the colour |
| WinScan.LongRunGivesWindow | connectfour.py:139-159 | a run of 4 or more through a cell gives a window of four consecutive same-coloured cells containing it |
| WinScan.WindowGivesLongRun | connectfour.py:139-159 | four consecutive same-coloured cells containing the cell make the run through it at least 4 |
| WinScan.DirectionWin | connectfour.py:139-159 | in one direction, the run both ways counting the cell itself reaches 4 iff some four-cell window along that direction through the cell is all its colour |
| WinScan.CheckWinnerAtIff | connectfour.py:126-162 | the in-bounds scan is false on an empty cell; otherwise it is true iff four cells of the cell's colour lie in a row through it along one of the four directions |
| WinScan.WraparoundFakesWin | connectfour.py:146-152 | on a bottom row W W . . . W W, the scan as written reports a win at (0, 0): the walk to the left reads column -1, which numpy wraps to column 6 |
| WinScan.WraparoundGridHasNoFour | connectfour.py:127-132 | that grid has no four in a row through (0, 0), so the in-bounds scan says no |
| WinScan.NegativeColumnFakesWin | connectfour.py:78-81 | add_disc(-1, WHITE) on a bottom row W W W . . . puts the disc at column 6 but scans from column -1, whose walk to the right reads columns 0, 1 and 2: the scan as written reports a win |
| WinScan.NegativeColumnGridHasNoFour | connectfour.py:127-132 | that grid has no four in a row through (0, 6), where the disc landed, so the in-bounds scan says no |
| WinScan.AsWrittenWitness | connectfour.py:139-159 | one direction whose as-written runs add up to 4 or more makes the as-written scan true |
| Identifiers.WeightedSumIsScaledDigits | connectfour.py:87-93 | the weighted sum over the cells from weight 3^k on is 3^k times the base-3 number whose digits are their entry codes |
| Identifiers.DigitsDetermineCells | connectfour.py:50-53 | equal base-3 numbers mean equal entry codes cell by cell |
| Identifiers.CodeInjective | connectfour.py:15-17 | EMPTY, WHITE and RED have distinct codes 0, 1, 2 |
| Identifiers.FlatCellAt | connectfour.py:53 | cell (r, c) carries weight 3^(r + c·ROWS), an exponent below ROWS·COLUMNS |
| Identifiers.StateIdentifierInjective | connectfour.py:87-93 | two grids have the same identifier iff they are the same grid |
| Identifiers.SameDigitsSameGrid | connectfour.py:50-53 | grids with the same base-3 reading are equal |
| Identifiers.WeightedSumOfDrop | connectfour.py:112-113 | writing x into an empty cell adds that cell's weight times x's code to every partial sum that covers the cell |
| Identifiers.StateIdentifierOfDrop | connectfour.py:112-113 | writing x into an empty cell raises the identifier by hash_matrix[row, col] times x's code |
| Identifiers.Pow3Values | connectfour.py:53 | the values of 3^39, 3^40 and 3^41 |
| Identifiers.HashMatrixOverflows | connectfour.py:50-53 | the 'i8' hash matrix cannot hold entries (4, 6) and (5, 6), which are 3^40 and 3^41 |
| Identifiers.HashMatrixEntryFits | connectfour.py:50-53 | an entry fits in int64 exactly when its exponent row + col·ROWS is below 40 |
| Identifiers.FirstOverflow | connectfour.py:50-53 | the cell at which the fill loop raises OverflowError is in the grid and its weight does not fit in 'i8' |
| Identifiers.FillRaisesFrom | connectfour.py:50-53 | from any cell up to (4, 6) in loop order, the fill loop raises OverflowError at (4, 6) |
| Identifiers.ConstructorRaises | connectfour.py:44-53 | the constructor's fill loop raises OverflowError at (4, 6), so ConnectFour() never returns |
| ConnectFour.NewBoard | connectfour.py:44-57 | the new board is 6 × 7, all empty, settled, with no winner |
| ConnectFour.LowestEmptyFrom | connectfour.py:78-83 | the loop finds the first empty row from r upward, or reports that all rows from r are filled |
| ConnectFour.LowestEmpty | connectfour.py:78-85 | a landing row exists iff the column has an empty cell, and it is the lowest empty one |
| ConnectFour.PutCells | connectfour.py:80 | writing a cell sets that cell and changes no other |
| ConnectFour.AddDisc | connectfour.py:68-85 | succeeds iff the column has an empty cell, and raises IllegalMove otherwise; the colour goes into the lowest empty row; the winner becomes the colour when that disc completes four in a row, and otherwise keeps its old value |
| ConnectFour.AddDiscPlacesDisc | connectfour.py:78-83 | on a settled board: the cells below the landing row are filled and those from it up were empty; the disc is placed there, no other cell changes, and the board stays settled |
| ConnectFour.RoomIffTopEmpty | connectfour.py:59-66 | on a settled board a column has room iff its top cell is empty |
| ConnectFour.DropAt | connectfour.py:78-85 | column indices 0..6 are used as given; -7..-1 index the same column counted from the right; anything else raises IndexError |
| ConnectFour.WinnerCanBeOverwritten | connectfour.py:81-82 | after white has won, a red disc completing a row of four makes red the winner: nothing guards the field |
| ConnectFour.RedCompletesRow | connectfour.py:81 | in that example, red's fourth disc completes four in a row |
| ConnectFour.ColumnsFrom | connectfour.py:66 | the comprehension lists, in ascending order, exactly the columns whose top cell is full or exactly those whose top cell is empty, as asked |
| ConnectFour.LegalMovesAsWrittenAreFull | connectfour.py:59-66 | on a settled board, legal_moves as written lists in ascending order exactly the columns on which add_disc raises IllegalMove |
| ConnectFour.LegalMovesHaveRoom | connectfour.py:59-64 | with the test corrected, the list is ascending and holds exactly the columns on which add_disc succeeds, as the docstring says |
| ConnectFour.LegalMovesInverted | connectfour.py:66 | on the new board the code returns [] where the docstring calls for [0, 1, 2, 3, 4, 5, 6] |
| ConnectFour.NewBoardTopOpen | connectfour.py:48 | the new board's top row is empty |
| ConnectFour.ColumnsOfOpenTop | connectfour.py:66 | with an empty top row, no column counts as full and every column counts as open, in ascending order |
| ConnectFour.NextStateIdentifier | connectfour.py:95-115 | raises IllegalMove exactly when add_disc does; otherwise it equals state_identifier of the grid add_disc produces, which settles the TODO at line 104 |
| ConnectFour.EntryToCharacterInjective | connectfour.py:22-38 | EMPTY, WHITE and RED show as '.', 'W' and 'R', three distinct characters |
| ConnectFour.RenderRowsLayout | connectfour.py:170-174 | n lines of COLUMNS characters joined by single newlines, with line i showing row n-1-i |
| ConnectFour.RenderLayout | connectfour.py:164-174 | __str__ is ROWS lines of COLUMNS characters, top row first: cell (r, c) is at column c of line ROWS-1-r |
| ConnectFour.RenderInjective | connectfour.py:164-174 | two boards render alike iff their grids are equal |
| OpenLines.CountElement | connectfourutils.py:6-21 | the count is between 0 and the array's length |
| OpenLines.CountElementIsMultiplicity | connectfourutils.py:6-21 | the count is the number of positions holding the element |
| OpenLines.Opponent | connectfourutils.py:37-40 | the opponent is WHITE for RED and RED for anything else, in particular a disc colour other than the player's |
| OpenLines.OpponentInvolution | connectfourutils.py:37-40 | the opponent of a disc colour's opponent is that colour |
| OpenLines.FitsInGrid | connectfourutils.py:50-53 | a window that passes the bound test has all four cells inside the grid |
| OpenLines.FlatIndexAgrees | connectfourutils.py:55-60 | start + i·jump in the flattened grid is the i-th cell of the window, and it is in range, so the index filter drops nothing |
| OpenLines.Entries | connectfourutils.py:58-60 | a window's entries are four cells |
| OpenLines.Buckets | connectfourutils.py:42 | the counts are five buckets |
| OpenLines.RowWindowsLength | connectfourutils.py:48-49 | one row visits 4 windows per column |
| OpenLines.RowWindowsMember | connectfourutils.py:48-49 | one row visits exactly its own cells, each in every direction |
| OpenLines.GridWindowsLength | connectfourutils.py:47-49 | the loops visit 4 windows per cell |
| OpenLines.GridWindowsMember | connectfourutils.py:47-49 | the loops visit exactly the windows that start on the grid in one of the four directions |
| OpenLines.GridWindowsSound | connectfourutils.py:47-49 | every window visited starts on the grid in a scan direction |
| OpenLines.GridWindowsComplete | connectfourutils.py:47-49 | every such window is visited |
| OpenLines.AllWindowsShape | connectfourutils.py:47-49 | rows × columns × 4 windows in all, one per start cell and direction |
| OpenLines.CountOpenPositions | connectfourutils.py:23-68 | the result has five buckets |
| OpenLines.BucketIsCount | connectfourutils.py:62-66 | bucket n counts the windows in the grid that are free of opponent discs and hold n player discs |
| OpenLines.BucketsTotal | connectfourutils.py:42-68 | the five buckets add up to the number of in-grid windows free of opponent discs |
| OpenLines.BucketWitness | connectfourutils.py:62-66 | bucket n is non-zero iff some examined window holds exactly n player discs |
| OpenLines.CellCounts | connectfourutils.py:49-66 | the tally over one start cell is the sum over its four directions |
| OpenLines.RowCounts | connectfourutils.py:48-66 | the tally over one row is the sum over its start cells |
| OpenLines.GridCounts | connectfourutils.py:47-66 | the tally over the rows so far is the sum over those rows |
| OpenLines.GridCountsStep | connectfourutils.py:47-66 | adding a row's windows adds that row's count |
| OpenLines.CountIsGridCount | connectfourutils.py:47-68 | bucket n of the result is the cell-by-cell sum of the windows landing in bucket n |
| OpenLines.EmptyHit | connectfourutils.py:51-66 | on an empty grid, a window counts in bucket 0 iff it lies inside the grid, and in no other bucket |
| OpenLines.EmptyCell | connectfourutils.py:49-66 | on an empty grid, a start cell adds one to bucket 0 per direction whose window fits |
| OpenLines.EmptyRow | connectfourutils.py:48-66 | the same for a run of start cells in one row |
| OpenLines.RowLinesClosed | connectfourutils.py:51-53 | the number of fitting lines that start in a row, in closed form |
| OpenLines.EmptyFullRow | connectfourutils.py:48-66 | the closed form for a whole row of an empty grid |
| OpenLines.RowsLinesClosed | connectfourutils.py:51-53 | the number of fitting lines over the first m rows, in closed form |
| OpenLines.EmptyRows | connectfourutils.py:47-66 | on an empty grid, the first m rows put all their fitting lines in bucket 0 |
| OpenLines.EmptyGridCounts | connectfourutils.py:42-68 | on an empty rows × cols grid everything is in bucket 0, which holds rows·f(cols) + f(rows)·(cols + 2·f(cols)) lines, with f(n) = max(n-3, 0) |
| OpenLines.FullWindow | connectfourutils.py:62-66 | a window of four lands in bucket 4 iff all four cells are the player's |
| OpenLines.FourBucket | connectfourutils.py:47-68 | bucket 4 is non-zero iff some in-grid window is filled with the player's discs |
| OpenLineVectors.ProfileScores | connectfourutils.py:62-66 | bucket n of the ten-window profile is the sum of the ten per-window hits |
| OpenLineVectors.RowSteps | connectfourutils.py:48-66 | a 4 × 4 row's count is the sum over its four start cells |
| OpenLineVectors.BottomRow | connectfourutils.py:49-66 | the bottom row of a 4 × 4 grid starts seven fitting windows |
| OpenLineVectors.UpperRow | connectfourutils.py:49-66 | each upper row starts only its horizontal window |
| OpenLineVectors.FourByFour | connectfourutils.py:47-68 | on a 4 × 4 grid the buckets tally the ten fitting windows |
| OpenLineVectors.EmptyVector | connectfourutils.py:73-74 | the empty 4 × 4 grid gives [10, 0, 0, 0, 0] for WHITE |
| OpenLineVectors.CornerEntries | connectfourutils.py:75 | the ten windows once WHITE is at (0, 0) |
| OpenLineVectors.CornerScores | connectfourutils.py:76 | their scores for WHITE |
| OpenLineVectors.CornerVector | connectfourutils.py:75-76 | WHITE at (0, 0) gives [7, 3, 0, 0, 0] for WHITE |
| OpenLineVectors.NeighbourEntries | connectfourutils.py:77 | the ten windows once RED is at (0, 1) as well |
| OpenLineVectors.NeighbourScores | connectfourutils.py:78 | their scores for RED |
| OpenLineVectors.NeighbourVector | connectfourutils.py:77-78 | adding RED at (0, 1) gives [6, 1, 0, 0, 0] for RED |
| OpenLineVectors.ColumnEntries | connectfourutils.py:79 | the ten windows once all of column 1 is RED |
| OpenLineVectors.ColumnScores | connectfourutils.py:80 | their scores for RED |
| OpenLineVectors.ColumnVector | connectfourutils.py:79-80 | with all of column 1 RED the result is [2, 4, 0, 0, 1] for RED |
| OpenLineWins.CompleteIsFourFrom | connectfourutils.py:58-66 | a window that lands in bucket 4 is four in a row of the player's colour from its start cell |
| OpenLineWins.CompleteIffFour | connectfourutils.py:47-66 | some window is full of the player's discs iff the player has four in a row somewhere on the board |
| OpenLineWins.FourBucketIsWin | connectfourutils.py:23-68 | on the board, bucket 4 is non-zero iff the player has four in a row |
| OpenLineWins.FourThroughHoldsPlayer | connectfour.py:135-137 | four of a colour in a row through a cell means the cell holds that colour |
| OpenLineWins.FourIffScan | connectfour.py:126-162 | the player has four in a row iff the in-bounds scan succeeds at some cell of the player's colour |
| OpenLineWins.FourBucketIsScanWin | connectfourutils.py:23-68 | bucket 4 is non-zero iff the in-bounds win scan succeeds at one of the player's discs |
| Match.Colour | connectfourgame.py:41 | each player slot plays a disc colour |
| Match.Other | connectfourgame.py:46 | the other player is not the mover |
| Match.MoverNext | connectfourgame.py:45-46 | the next ply's mover is this ply's other player |
| Match.Seen | connectfourgame.py:48-68 | a player's history is no longer than the trace, and every call in it was made on that player |
| Match.SeenMembers | connectfourgame.py:48-68 | a call is in a player's history exactly when it is in the trace and was made on that player |
| Match.Proposals | connectfourgame.py:48 | the proposals are no more than the trace's calls, and each is a propose_move call |
| Match.ProposalsMembers | connectfourgame.py:48 | a call is a proposal exactly when it is in the trace and is a propose_move call |
| Match.PlyStep | connectfourgame.py:45-68 | a ply that stops leaves an outcome at that ply with more calls, and a draw only on the last ply; a ply that goes on does so before the last ply |
| Match.PlayFrom | connectfourgame.py:44-68 | a game always makes calls, stops at a ply below ROWS·COLUMNS, and draws only on the last ply |
| Match.StepGo | connectfourgame.py:57-68 | a ply goes on exactly when its drop succeeds without a winner before the last ply; it then continues on the new board after the proposal and the deferred reward |
| Match.ClosingTail | connectfourgame.py:53-65 | a proposal followed by a ply's closing rewards ends with those rewards after a proposal |
| Match.DropVerdict | connectfourgame.py:50-57 | an IndexError means the column was outside -7..6, and a winner after a drop on a board without one is the mover's colour |
| Match.EndsOnFailure | connectfourgame.py:50-55 | a failed drop stops the game on the unchanged board: an IndexError ends it as a crash right after the proposal, an IllegalMove ends it as the mover's illegal move after -2 to the mover and, where paid, +1 to the other |
| Match.EndsOnStop | connectfourgame.py:57-65 | a drop that wins or fills the last ply stops the game on the board the drop gives: a winner ends it as the mover's win after +1 to the mover and, where paid, -1 to the other; otherwise it is a draw with 0 to each |
| Match.EndsOnHalt | connectfourgame.py:50-65 | a ply that stops the game ends it as ruled, with the ending the drop's verdict calls for: IndexError a crash, IllegalMove an illegal move, a winner a win, else a draw |
| Match.PlayFromEnds | connectfourgame.py:44-68 | from any ply, the game ends as ruled |
| Match.StopExtends | connectfourgame.py:48-65 | a ply that stops keeps the earlier calls, then its proposal |
| Match.OpensEarlier | connectfourgame.py:48-68 | calls that go on from a ply's calls also go on from the calls before that ply |
| Match.PlayFromExtends | connectfourgame.py:45-48 | a game keeps the calls made before it and starts with the mover's propose_move, in the mover's colour, of the column its strategy returns |
| Match.LegalMoveDefersReward | connectfourgame.py:66-68 | after a legal move that neither wins nor ends the game, the next calls are the other player's REWARD_LEGAL_MOVE where paid, then the other player's proposal: the mover gets nothing |
| Match.HandOver | connectfourgame.py:66-68 | where a ply's calls and the next proposal open a trace, they sit at the expected places in it |
| Match.Calls | connectfourgame.py:44-68 | a player gets at most one call per ply before the current one |
| Match.SeenSnoc | connectfourgame.py:48-68 | a new call is added to the history of the player it was made on, and to no other |
| Match.ProposalsSnoc | connectfourgame.py:48 | a new call adds to the proposals only when it is a propose_move |
| Match.AlternatesSnoc | connectfourgame.py:34-37 | a call of the expected kind keeps a history alternating |
| Match.CallParity | connectfourgame.py:45-46 | on each ply the mover's next call falls at a proposal position and the other's at a reward position; the counts advance by one call for the mover and one for the other where paid |
| Match.CallOn | connectfourgame.py:48-68 | a call of the expected kind lengthens its player's history by one, keeps it alternating, and leaves the other's alone |
| Match.ProposeStep | connectfourgame.py:45-48 | ply k's proposal is the (k+1)-th, by players[k % 2] in its colour, and lengthens the mover's history by one |
| Match.CloseStep | connectfourgame.py:53-65 | a closing reward goes to the mover, and to the other where paid, keeping both histories alternating |
| Match.DeferStep | connectfourgame.py:66-68 | the deferred REWARD_LEGAL_MOVE leaves the calls in the state expected at the next ply |
| Match.ShapeOnFailure | connectfourgame.py:50-55 | a failed drop stops the game with each player's calls as ruled |
| Match.ShapeOnStop | connectfourgame.py:57-65 | a win or a draw stops the game with each player's calls as ruled |
| Match.ShapeOnGo | connectfourgame.py:57-68 | a ply that goes on leaves the calls expected at the next ply |
| Match.ShapeOnHalt | connectfourgame.py:50-65 | a ply that stops the game leaves its calls as ruled |
| Match.PlayFromShape | connectfourgame.py:44-68 | from any ply, the calls of the whole game are as ruled: one proposal per ply played, white on even plies, red on odd ones, and each player's history alternating with the expected length |
| Match.AlternatingCounts | connectfourgame.py:34-37 | alternating calls hold half proposals: rounded up when they start with a proposal, rounded down when they start with a reward |
| Match.BalancedCounts | connectfourgame.py:34-37 | balanced calls hold as many rewards as proposals, start with propose_move and end with receive_reward |
| Match.PlayAsRuled | connectfourgame.py:40-68 | every game's calls and ending are as ruled, for any strategies |
| Match.PlayLength | connectfourgame.py:40-44 | a game makes one proposal per ply played, at most ROWS·COLUMNS = 42, and a draw uses all 42 |
| Match.WhiteBalancedWhenRuled | connectfourgame.py:34-37 | calls as ruled on a game with no escaped IndexError leave white's history balanced |
| Match.WhiteBalanced | connectfourgame.py:34-37 | under either rule, white's calls alternate from propose_move and end with receive_reward, unless an IndexError escaped |
| Match.RewardFirstCounts | connectfourgame.py:34-37 | an odd number of alternating calls that starts with a reward holds one more reward than proposals and is not balanced |
| Match.RedRewardedFirstWhenRuled | connectfourgame.py:54-68 | calls as ruled as written, on a game with no escaped IndexError, leave red's history starting with a reward and holding one more reward than proposals |
| Match.RedRewardedFirst | connectfourgame.py:34-68 | as written, red's first call is receive_reward and red gets one reward more than its proposals, so the docstring's promise fails for red in every game without an escaped IndexError |
| Match.GuardedBalancedWhenRuled | connectfourgame.py:34-37 | calls as ruled with the guard leave both histories balanced |
| Match.GuardedBalanced | connectfourgame.py:34-68 | when the other player is paid only once it has moved, both players' calls are balanced, as the docstring promises |

## Left out

- Console I/O, the menu and the training loop of connectfourmain.py are not modelled. They are interaction, not logic.
- connectfourtest.py is not modelled. It calls test functions that do not exist.
- The players of connectfourplayers.py are replaced by an abstract strategy: a function from the board, its colour and the calls so far to a column.
  - `RandomPlayer` draws its move at random.
  - `HumanPlayer` reads its move from the console.
  - A real player sees only the calls made on it, which is one such strategy.
  - A player that mutates the board it is handed is not modelled.
- `set_player_colour` (connectfourgame.py:27-28) is not modelled. Neither shown player defines it, and the colour is passed to every proposal anyway.
- The learning players are not in the shown source.
- The float dtype of `np.zeros(5)` is not modelled: the counts are natural numbers.
- `int64` arithmetic is not modelled: identifiers are unbounded integers.
  - `Identifiers.HashMatrixOverflows` shows that two hash-matrix entries already do not fit in 'i8'.
  - numpy raises OverflowError on storing such an entry, so `ConnectFour()` as written raises at cell (4, 6) (`Identifiers.ConstructorRaises`), and every `play` fails at connectfourgame.py:42 before any player is called.
  - The sum at connectfour.py:93 can overflow as well.
- ConnectFour.NewBoard, Match.Play: model a constructor that completes, with the hash matrix replaced by exact weights. As written the constructor cannot complete; see Findings.
- `winner()` (connectfour.py:117-124) returns the stored colour, WHITE (1) or RED (2), as `Board.winner` does. Its docstring promises PLAYER_WHITE (0) or PLAYER_RED (1), so a white winner reads as PLAYER_RED. The model follows the code and does not map colours to player indices.
- `ValueError` of `_entry_to_character` is not modelled: a cell is one of three entries by type.
- An `IndexError` escaping `play` is modelled as the ending `Crash`, with no rewards after the proposal.
- ConnectFour.AddDisc, ConnectFour.NextStateIdentifier: take a column 0..6. Numpy's negative indices are modelled once, in ConnectFour.DropAt, which the match uses.
- ConnectFour.AddDisc: runs the win scan in bounds (WinScan.CheckWinnerAt), as the docstring of `_check_winner_at_location` describes. The scan as written is WinScan.CheckWinnerAtAsWritten; see Findings.
- OpenLines.CountOpenPositions, OpenLines.Buckets: their own contracts only fix the number of buckets. What each bucket holds is stated by OpenLines.BucketIsCount, OpenLines.BucketsTotal and OpenLines.CountIsGridCount.

## Findings

| source | as written | input that shows it | evidently intended | confidence | as-written member | corrected member |
|---|---|---|---|---|---|---|
| connectfour.py:66 | keeps a column when its top cell is `!= EMPTY`, that is, when it is full | the new board: every column has room, the list is []; `RandomPlayer` (connectfourplayers.py:34) would then call `random.choice([])` on the first move | the docstring's "columns with room", a test `== EMPTY`, giving [0, 1, 2, 3, 4, 5, 6] | not executed | ConnectFour.LegalMovesAsWrittenAreFull | ConnectFour.LegalMovesHaveRoom |
| connectfour.py:149-152 | stops a walk only on IndexError; numpy wraps indices -1..-6 (and -1..-7 for columns) to the far edge | bottom row W W . . . W W with the last disc at (0, 0): the walk left reads columns 6 and 5 and counts 4 | walks that stop at the grid edge, as the docstring and comment say | not executed | WinScan.WraparoundFakesWin | WinScan.CheckWinnerAtIff |
| connectfour.py:78-81 | passes a negative column to the scan unchanged, so the walks start at that negative index while the disc sits at column + 7 | add_disc(-1, WHITE) on a bottom row W W W . . . : the walk right from column -1 reads columns 0, 1 and 2 and counts 4 | the scan starts from the cell the disc landed in, the "disc at the specified location" of the scan's docstring (connectfour.py:127-128) | not executed | WinScan.NegativeColumnFakesWin | ConnectFour.DropAt |
| connectfour.py:50-53 | stores 3^(row + col·ROWS) into an 'i8' matrix; numpy raises OverflowError on an entry that does not fit, so the constructor raises and every `play` fails at connectfourgame.py:42 | entries (4, 6) and (5, 6): 3^40 and 3^41 exceed 2^63 - 1, and the loop reaches (4, 6) first | exact weights, giving an injective identifier | not executed | Identifiers.ConstructorRaises | Identifiers.StateIdentifierInjective |
| connectfourgame.py:50-68 | pays the other player after every ply, including ply 0, before red's first propose_move | any game that ends without an escaped IndexError: red's calls start with receive_reward | the docstring's alternation: reward the other player only once it has moved | not executed | Match.RedRewardedFirst | Match.GuardedBalanced |
