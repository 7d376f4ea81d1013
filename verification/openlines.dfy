/** The open-line counter of connectfourutils.py (count_open_positions and
    _count_element): every 4-cell window of a grid, in every direction, that
    holds no opponent disc is tallied by how many of the player's discs it holds. */
module OpenLines {
  import opened Grids

  /** _count_element: the number of entries of a equal to e. */
  function CountElement(a: seq<Cell>, e: Cell): (n: nat)
    ensures n <= |a|
  {
    if a == [] then 0 else (if a[0] == e then 1 else 0) + CountElement(a[1..], e)
  }

  /** The count is the multiplicity of e in a. */
  lemma {:induction false} CountElementIsMultiplicity(a: seq<Cell>, e: Cell)
    ensures CountElement(a, e) == multiset(a)[e]
  {
    if a != [] {
      CountElementIsMultiplicity(a[1..], e);
      assert a == [a[0]] + a[1..];
    }
  }

  /** The colour whose discs close a line for player: WHITE against RED, RED against
      anything else. */
  function Opponent(player: Cell): (o: Cell)
    ensures o != Empty && o != player
    ensures player == Red ==> o == White
    ensures player != Red ==> o == Red
  {
    if player == Red then White else Red
  }

  lemma OpponentInvolution(player: Cell)
    requires player != Empty
    ensures Opponent(Opponent(player)) == player
  {
  }

  /** A window: a start cell and one of the four directions. */
  datatype Window = Window(row: int, col: int, dir: Direction)

  /** The loop visits each start cell of the grid with each direction. */
  predicate WellPlaced(nr: nat, nc: nat, w: Window) {
    InBounds(nr, nc, w.row, w.col) && w.dir in Directions
  }

  /** The loop's bound test: the fourth cell lies inside the grid. */
  predicate Fits(nr: nat, nc: nat, w: Window) {
    w.row + 3 * w.dir.dr < nr && w.col + 3 * w.dir.dc < nc && w.col + 3 * w.dir.dc >= 0
  }

  /** Position of the i-th cell of the window. */
  function CellRow(w: Window, i: int): int
    requires IsStep(w.dir)
  {
    Advance(w.row, w.dir.dr, i)
  }

  function CellCol(w: Window, i: int): int
    requires IsStep(w.dir)
  {
    Advance(w.col, w.dir.dc, i)
  }

  /** A window that passes the bound test has all four cells in the grid. */
  lemma FitsInGrid(nr: nat, nc: nat, w: Window)
    requires WellPlaced(nr, nc, w) && Fits(nr, nc, w)
    ensures IsStep(w.dir)
    ensures forall i :: 0 <= i < 4 ==> InBounds(nr, nc, CellRow(w, i), CellCol(w, i))
  {
    DirectionsAreSteps();
  }

  /** The four entries of a window, in order. */
  function Entries(g: Grid, nr: nat, nc: nat, w: Window): (e: seq<Cell>)
    requires Shaped(g, nr, nc) && WellPlaced(nr, nc, w) && Fits(nr, nc, w)
    ensures |e| == 4
  {
    FitsInGrid(nr, nc, w);
    [g[CellRow(w, 0)][CellCol(w, 0)], g[CellRow(w, 1)][CellCol(w, 1)],
     g[CellRow(w, 2)][CellCol(w, 2)], g[CellRow(w, 3)][CellCol(w, 3)]]
  }

  /** The source reads the window through the row-major flattened grid, at indices
      start, start + jump, ... with start = row * nc + col and jump = dr * nc + dc,
      keeping those in 0 .. size-1. For a window that passes the bound test the
      i-th index is that of the i-th cell, so the filter drops nothing. */
  lemma FlatIndexAgrees(nr: nat, nc: nat, w: Window, i: int)
    requires WellPlaced(nr, nc, w) && Fits(nr, nc, w) && 0 <= i < 4
    ensures IsStep(w.dir)
    ensures var start, jump := w.row * nc + w.col, w.dir.dr * nc + w.dir.dc;
            start + i * jump == CellRow(w, i) * nc + CellCol(w, i)
            && 0 <= start + i * jump < nr * nc
  {
    FitsInGrid(nr, nc, w);
    var r, c := CellRow(w, i), CellCol(w, i);
    AdvanceIsProduct(w.row, w.dir.dr, i);
    AdvanceIsProduct(w.col, w.dir.dc, i);
    FlatStep(w.row, w.col, w.dir.dr, w.dir.dc, nc, i);
    FlatBound(nr, nc, r, c);
  }

  lemma FlatStep(row: int, col: int, dr: int, dc: int, nc: int, i: int)
    ensures row * nc + col + i * (dr * nc + dc) == (row + i * dr) * nc + (col + i * dc)
  {
    assert i * (dr * nc + dc) == (i * dr) * nc + i * dc;
  }

  lemma FlatBound(nr: nat, nc: nat, r: int, c: int)
    requires InBounds(nr, nc, r, c)
    ensures 0 <= r * nc + c < nr * nc
  {
    assert r * nc <= (nr - 1) * nc;
  }

  /** The window is tallied: it is one the loops visit, it fits and it holds no
      opponent disc. */
  predicate Examined(g: Grid, nr: nat, nc: nat, player: Cell, w: Window)
    requires Shaped(g, nr, nc)
  {
    WellPlaced(nr, nc, w) && Fits(nr, nc, w) && Opponent(player) !in Entries(g, nr, nc, w)
  }

  /** Five zero buckets: np.zeros(5). */
  const NoCounts: seq<nat> := [0, 0, 0, 0, 0]

  /** The counts after visiting the windows ws in order. */
  function Buckets(g: Grid, nr: nat, nc: nat, player: Cell, ws: seq<Window>): (b: seq<nat>)
    requires Shaped(g, nr, nc)
    ensures |b| == 5
  {
    if ws == [] then NoCounts
    else
      var b := Buckets(g, nr, nc, player, ws[..|ws| - 1]);
      var w := ws[|ws| - 1];
      if Examined(g, nr, nc, player, w) then
        var n := CountElement(Entries(g, nr, nc, w), player);
        b[n := b[n] + 1]
      else b
  }

  /** The four windows started at one cell, in the loop's direction order. */
  function CellWindows(row: int, col: int): seq<Window> {
    [Window(row, col, Directions[0]), Window(row, col, Directions[1]),
     Window(row, col, Directions[2]), Window(row, col, Directions[3])]
  }

  /** The windows started in columns 0 .. n-1 of one row. */
  function RowWindows(row: int, n: nat): seq<Window> {
    if n == 0 then [] else RowWindows(row, n - 1) + CellWindows(row, n - 1)
  }

  /** The windows started in rows 0 .. m-1. */
  function GridWindows(m: nat, nc: nat): seq<Window> {
    if m == 0 then [] else GridWindows(m - 1, nc) + RowWindows(m - 1, nc)
  }

  /** Every window the nested loops visit, in visiting order. */
  function AllWindows(nr: nat, nc: nat): seq<Window> {
    GridWindows(nr, nc)
  }

  /** count_open_positions. */
  function CountOpenPositions(g: Grid, nr: nat, nc: nat, player: Cell): (counts: seq<nat>)
    requires Shaped(g, nr, nc)
    ensures |counts| == 5
  {
    Buckets(g, nr, nc, player, AllWindows(nr, nc))
  }

  lemma {:induction false} RowWindowsLength(row: int, n: nat)
    ensures |RowWindows(row, n)| == 4 * n
  {
    if n > 0 {
      RowWindowsLength(row, n - 1);
    }
  }

  lemma {:induction false} RowWindowsMember(row: int, n: nat, w: Window)
    ensures w in RowWindows(row, n) <==> w.row == row && 0 <= w.col < n && w.dir in Directions
  {
    if n > 0 {
      RowWindowsMember(row, n - 1, w);
      assert RowWindows(row, n) == RowWindows(row, n - 1) + CellWindows(row, n - 1);
      assert w in CellWindows(row, n - 1) <==> w.row == row && w.col == n - 1 && w.dir in Directions;
    }
  }

  lemma {:induction false} GridWindowsLength(m: nat, nc: nat)
    ensures |GridWindows(m, nc)| == 4 * nc * m
  {
    if m > 0 {
      GridWindowsLength(m - 1, nc);
      RowWindowsLength(m - 1, nc);
      MulStep(4 * nc, m);
    }
  }

  lemma {:induction false} GridWindowsMember(m: nat, nc: nat, w: Window)
    ensures w in GridWindows(m, nc) <==> WellPlaced(m, nc, w)
  {
    if w in GridWindows(m, nc) {
      GridWindowsSound(m, nc, w);
    }
    if WellPlaced(m, nc, w) {
      GridWindowsComplete(m, nc, w);
    }
  }

  lemma {:induction false} GridWindowsSound(m: nat, nc: nat, w: Window)
    requires w in GridWindows(m, nc)
    ensures WellPlaced(m, nc, w)
  {
    assert m > 0;
    var front, last := GridWindows(m - 1, nc), RowWindows(m - 1, nc);
    assert GridWindows(m, nc) == front + last;
    if w in front {
      GridWindowsSound(m - 1, nc, w);
      assert InBounds(m - 1, nc, w.row, w.col);
    } else {
      assert w in last;
      RowWindowsMember(m - 1, nc, w);
      assert w.row == m - 1;
    }
  }

  lemma {:induction false} GridWindowsComplete(m: nat, nc: nat, w: Window)
    requires WellPlaced(m, nc, w)
    ensures w in GridWindows(m, nc)
  {
    var front, last := GridWindows(m - 1, nc), RowWindows(m - 1, nc);
    if w.row < m - 1 {
      GridWindowsComplete(m - 1, nc, w);
      assert w in front;
    } else {
      RowWindowsMember(m - 1, nc, w);
      assert w in last;
    }
    assert GridWindows(m, nc) == front + last;
  }

  lemma MulStep(a: int, m: int)
    ensures a * m == a * (m - 1) + a
  {
  }

  /** The loops visit every start cell with every direction, once each:
      nr * nc * 4 windows. */
  lemma AllWindowsShape(nr: nat, nc: nat)
    ensures |AllWindows(nr, nc)| == nr * nc * |Directions|
    ensures forall w :: w in AllWindows(nr, nc) <==> WellPlaced(nr, nc, w)
  {
    GridWindowsLength(nr, nc);
    forall w {
      GridWindowsMember(nr, nc, w);
    }
  }

  /** A window with entries e lands in bucket n: no opponent disc and n player discs. */
  function Score(e: seq<Cell>, player: Cell, n: int): nat {
    if Opponent(player) !in e && CountElement(e, player) == n then 1 else 0
  }

  /** Window w lands in bucket n: it is tallied and holds n player discs. */
  function Hit(g: Grid, nr: nat, nc: nat, player: Cell, w: Window, n: int): nat
    requires Shaped(g, nr, nc)
  {
    if WellPlaced(nr, nc, w) && Fits(nr, nc, w) then Score(Entries(g, nr, nc, w), player, n) else 0
  }

  /** Number of windows of ws that land in bucket n. */
  function BucketCount(g: Grid, nr: nat, nc: nat, player: Cell, ws: seq<Window>, n: int): nat
    requires Shaped(g, nr, nc)
  {
    if ws == [] then 0 else BucketCount(g, nr, nc, player, ws[..|ws| - 1], n) + Hit(g, nr, nc, player, ws[|ws| - 1], n)
  }

  /** Bucket n ends up holding the number of visited windows with n player discs
      and no opponent disc. */
  lemma {:induction false} BucketIsCount(g: Grid, nr: nat, nc: nat, player: Cell, ws: seq<Window>, n: int)
    requires Shaped(g, nr, nc) && 0 <= n < 5
    ensures Buckets(g, nr, nc, player, ws)[n] == BucketCount(g, nr, nc, player, ws, n)
  {
    if ws != [] {
      BucketIsCount(g, nr, nc, player, ws[..|ws| - 1], n);
    }
  }

  lemma {:induction false} BucketCountAppend(g: Grid, nr: nat, nc: nat, player: Cell, ws: seq<Window>, vs: seq<Window>, n: int)
    requires Shaped(g, nr, nc)
    ensures BucketCount(g, nr, nc, player, ws + vs, n) == BucketCount(g, nr, nc, player, ws, n) + BucketCount(g, nr, nc, player, vs, n)
  {
    var all := ws + vs;
    if vs == [] {
      assert all == ws;
    } else {
      var front := vs[..|vs| - 1];
      assert all[..|all| - 1] == ws + front;
      BucketCountAppend(g, nr, nc, player, ws, front, n);
    }
  }

  function Total(b: seq<nat>): nat
    requires |b| == 5
  {
    b[0] + b[1] + b[2] + b[3] + b[4]
  }

  /** Number of windows of ws that are tallied. */
  function ExaminedCount(g: Grid, nr: nat, nc: nat, player: Cell, ws: seq<Window>): nat
    requires Shaped(g, nr, nc)
  {
    if ws == [] then 0
    else ExaminedCount(g, nr, nc, player, ws[..|ws| - 1]) + if Examined(g, nr, nc, player, ws[|ws| - 1]) then 1 else 0
  }

  /** The buckets add up to the number of windows that fit and hold no opponent disc. */
  lemma {:induction false} BucketsTotal(g: Grid, nr: nat, nc: nat, player: Cell, ws: seq<Window>)
    requires Shaped(g, nr, nc)
    ensures Total(Buckets(g, nr, nc, player, ws)) == ExaminedCount(g, nr, nc, player, ws)
  {
    if ws != [] {
      BucketsTotal(g, nr, nc, player, ws[..|ws| - 1]);
    }
  }

  /** Bucket n is non-zero exactly when some tallied window holds n player discs. */
  lemma {:induction false} BucketWitness(g: Grid, nr: nat, nc: nat, player: Cell, ws: seq<Window>, n: int)
    requires Shaped(g, nr, nc) && 0 <= n < 5
    ensures Buckets(g, nr, nc, player, ws)[n] > 0 <==>
      exists i :: 0 <= i < |ws| && Examined(g, nr, nc, player, ws[i]) && CountElement(Entries(g, nr, nc, ws[i]), player) == n
  {
    if ws != [] {
      var front := ws[..|ws| - 1];
      BucketWitness(g, nr, nc, player, front, n);
      assert forall i :: 0 <= i < |front| ==> front[i] == ws[i];
      if Buckets(g, nr, nc, player, front)[n] > 0 {
        var i :| 0 <= i < |front| && Examined(g, nr, nc, player, front[i]) && CountElement(Entries(g, nr, nc, front[i]), player) == n;
        assert ws[i] == front[i];
      }
    }
  }

  /** Row by row and cell by cell: the windows the nested loops put in bucket n. */
  function CellCount(g: Grid, nr: nat, nc: nat, player: Cell, row: int, col: int, n: int): nat
    requires Shaped(g, nr, nc)
  {
    var ws := CellWindows(row, col);
    Hit(g, nr, nc, player, ws[0], n) + Hit(g, nr, nc, player, ws[1], n)
      + Hit(g, nr, nc, player, ws[2], n) + Hit(g, nr, nc, player, ws[3], n)
  }

  function RowCount(g: Grid, nr: nat, nc: nat, player: Cell, row: int, k: nat, n: int): nat
    requires Shaped(g, nr, nc)
  {
    if k == 0 then 0 else RowCount(g, nr, nc, player, row, k - 1, n) + CellCount(g, nr, nc, player, row, k - 1, n)
  }

  function GridCount(g: Grid, nr: nat, nc: nat, player: Cell, m: nat, n: int): nat
    requires Shaped(g, nr, nc)
  {
    if m == 0 then 0 else GridCount(g, nr, nc, player, m - 1, n) + RowCount(g, nr, nc, player, m - 1, nc, n)
  }

  lemma CellCounts(g: Grid, nr: nat, nc: nat, player: Cell, row: int, col: int, n: int)
    requires Shaped(g, nr, nc)
    ensures BucketCount(g, nr, nc, player, CellWindows(row, col), n) == CellCount(g, nr, nc, player, row, col, n)
  {
    var ws := CellWindows(row, col);
    assert ws[..3][..2] == ws[..2] && ws[..2][..1] == ws[..1] && ws[..1][..0] == [];
    assert BucketCount(g, nr, nc, player, ws[..1], n) == Hit(g, nr, nc, player, ws[0], n);
    assert BucketCount(g, nr, nc, player, ws[..2], n) == BucketCount(g, nr, nc, player, ws[..1], n) + Hit(g, nr, nc, player, ws[1], n);
    assert BucketCount(g, nr, nc, player, ws[..3], n) == BucketCount(g, nr, nc, player, ws[..2], n) + Hit(g, nr, nc, player, ws[2], n);
    assert BucketCount(g, nr, nc, player, ws, n) == BucketCount(g, nr, nc, player, ws[..3], n) + Hit(g, nr, nc, player, ws[3], n);
  }

  lemma {:induction false} RowCounts(g: Grid, nr: nat, nc: nat, player: Cell, row: int, k: nat, n: int)
    requires Shaped(g, nr, nc)
    ensures BucketCount(g, nr, nc, player, RowWindows(row, k), n) == RowCount(g, nr, nc, player, row, k, n)
  {
    if k > 0 {
      RowCounts(g, nr, nc, player, row, k - 1, n);
      CellCounts(g, nr, nc, player, row, k - 1, n);
      BucketCountAppend(g, nr, nc, player, RowWindows(row, k - 1), CellWindows(row, k - 1), n);
    }
  }

  lemma {:induction false} GridCounts(g: Grid, nr: nat, nc: nat, player: Cell, m: nat, n: int)
    requires Shaped(g, nr, nc)
    ensures BucketCount(g, nr, nc, player, GridWindows(m, nc), n) == GridCount(g, nr, nc, player, m, n)
  {
    if m > 0 {
      GridCounts(g, nr, nc, player, m - 1, n);
      GridCountsStep(g, nr, nc, player, m, n, GridWindows(m, nc), GridWindows(m - 1, nc));
    }
  }

  lemma GridCountsStep(g: Grid, nr: nat, nc: nat, player: Cell, m: nat, n: int, ws: seq<Window>, front: seq<Window>)
    requires Shaped(g, nr, nc) && 0 < m && ws == front + RowWindows(m - 1, nc)
    requires BucketCount(g, nr, nc, player, front, n) == GridCount(g, nr, nc, player, m - 1, n)
    ensures BucketCount(g, nr, nc, player, ws, n) == GridCount(g, nr, nc, player, m, n)
  {
    RowCounts(g, nr, nc, player, m - 1, nc, n);
    BucketCountAppend(g, nr, nc, player, front, RowWindows(m - 1, nc), n);
  }

  /** Bucket n of count_open_positions, summed start row by start row. */
  lemma CountIsGridCount(g: Grid, nr: nat, nc: nat, player: Cell, n: int)
    requires Shaped(g, nr, nc) && 0 <= n < 5
    ensures CountOpenPositions(g, nr, nc, player)[n] == GridCount(g, nr, nc, player, nr, n)
  {
    BucketIsCount(g, nr, nc, player, AllWindows(nr, nc), n);
    GridCounts(g, nr, nc, player, nr, n);
  }

  /** Every cell of the nr x nc grid is EMPTY. */
  ghost predicate AllEmpty(g: Grid, nr: nat, nc: nat)
    requires Shaped(g, nr, nc)
  {
    forall r, c :: InBounds(nr, nc, r, c) ==> g[r][c] == Empty
  }

  /** Starting columns 0 .. n-1 that leave room for three more cells to the right. */
  function Fit(n: int): nat {
    if n >= 3 then n - 3 else 0
  }

  function Min(a: int, b: int): int {
    if a <= b then a else b
  }

  /** The number of 4-cell lines in an nr x nc grid, with f(n) = max(n - 3, 0):
      nr * f(nc) horizontal, f(nr) * nc vertical and f(nr) * f(nc) along each
      diagonal. */
  function LineCount(nr: nat, nc: nat): nat {
    nr * Fit(nc) + Fit(nr) * (nc + 2 * Fit(nc))
  }

  lemma EmptyHit(g: Grid, nr: nat, nc: nat, player: Cell, w: Window, n: int)
    requires Shaped(g, nr, nc) && AllEmpty(g, nr, nc) && player != Empty
    ensures Hit(g, nr, nc, player, w, n) == if WellPlaced(nr, nc, w) && Fits(nr, nc, w) && n == 0 then 1 else 0
  {
    if WellPlaced(nr, nc, w) && Fits(nr, nc, w) {
      FitsInGrid(nr, nc, w);
      var e := Entries(g, nr, nc, w);
      assert e == [Empty, Empty, Empty, Empty];
      CountElementIsMultiplicity(e, player);
      assert multiset(e)[player] == 0;
    }
  }

  /** Lines starting at one cell: horizontal, vertical and the two diagonals. */
  function CellLines(nr: nat, nc: nat, row: int, col: int): nat {
    (if col + 3 < nc then 1 else 0) + (if row + 3 < nr then 1 else 0)
      + (if row + 3 < nr && col + 3 < nc then 1 else 0) + (if row + 3 < nr && col >= 3 then 1 else 0)
  }

  /** Lines starting in columns 0 .. k-1 of one row. */
  function RowLines(nr: nat, nc: nat, row: int, k: nat): nat {
    if k == 0 then 0 else RowLines(nr, nc, row, k - 1) + CellLines(nr, nc, row, k - 1)
  }

  lemma EmptyCell(g: Grid, nr: nat, nc: nat, player: Cell, row: int, col: int, n: int)
    requires Shaped(g, nr, nc) && AllEmpty(g, nr, nc) && player != Empty && InBounds(nr, nc, row, col)
    ensures CellCount(g, nr, nc, player, row, col, n) == if n != 0 then 0 else CellLines(nr, nc, row, col)
  {
    var ws := CellWindows(row, col);
    EmptyHit(g, nr, nc, player, ws[0], n);
    EmptyHit(g, nr, nc, player, ws[1], n);
    EmptyHit(g, nr, nc, player, ws[2], n);
    EmptyHit(g, nr, nc, player, ws[3], n);
  }

  lemma {:induction false} EmptyRow(g: Grid, nr: nat, nc: nat, player: Cell, row: int, k: nat, n: int)
    requires Shaped(g, nr, nc) && AllEmpty(g, nr, nc) && player != Empty && 0 <= row < nr && k <= nc
    ensures RowCount(g, nr, nc, player, row, k, n) == if n != 0 then 0 else RowLines(nr, nc, row, k)
  {
    if k > 0 {
      EmptyRow(g, nr, nc, player, row, k - 1, n);
      EmptyCell(g, nr, nc, player, row, k - 1, n);
    }
  }

  lemma {:induction false} RowLinesClosed(nr: nat, nc: nat, row: int, k: nat)
    requires k <= nc
    ensures RowLines(nr, nc, row, k) == Min(k, Fit(nc)) + (if row + 3 < nr then k + Min(k, Fit(nc)) + Fit(k) else 0)
  {
    if k > 0 {
      RowLinesClosed(nr, nc, row, k - 1);
    }
  }

  lemma EmptyFullRow(g: Grid, nr: nat, nc: nat, player: Cell, row: int, n: int)
    requires Shaped(g, nr, nc) && AllEmpty(g, nr, nc) && player != Empty && 0 <= row < nr
    ensures RowCount(g, nr, nc, player, row, nc, n) ==
      if n != 0 then 0 else Fit(nc) + (if row + 3 < nr then nc + 2 * Fit(nc) else 0)
  {
    EmptyRow(g, nr, nc, player, row, nc, n);
    RowLinesClosed(nr, nc, row, nc);
  }

  /** Lines starting in rows 0 .. m-1, summed row by row. */
  function RowsLines(nr: nat, nc: nat, m: nat): nat {
    if m == 0 then 0 else RowsLines(nr, nc, m - 1) + Fit(nc) + (if m - 1 + 3 < nr then nc + 2 * Fit(nc) else 0)
  }

  lemma {:induction false} RowsLinesClosed(nr: nat, nc: nat, m: nat)
    requires m <= nr
    ensures RowsLines(nr, nc, m) == m * Fit(nc) + Min(m, Fit(nr)) * (nc + 2 * Fit(nc))
  {
    if m > 0 {
      RowsLinesClosed(nr, nc, m - 1);
      var f, k, a := Fit(nc), nc + 2 * Fit(nc), Min(m - 1, Fit(nr));
      var extra := if m - 1 + 3 < nr then k else 0;
      assert RowsLines(nr, nc, m) == (m - 1) * f + a * k + f + extra;
      LineStep(m, f, Fit(nr), k);
    }
  }

  lemma LineStep(m: int, f: int, fr: int, k: int)
    ensures m * f + Min(m, fr) * k == (m - 1) * f + Min(m - 1, fr) * k + f + (if m - 1 < fr then k else 0)
  {
    MulStep(f, m);
    MulStep(k, Min(m - 1, fr) + 1);
  }

  lemma {:induction false} EmptyRows(g: Grid, nr: nat, nc: nat, player: Cell, m: nat, n: int)
    requires Shaped(g, nr, nc) && AllEmpty(g, nr, nc) && player != Empty && m <= nr
    ensures GridCount(g, nr, nc, player, m, n) == if n != 0 then 0 else RowsLines(nr, nc, m)
  {
    if m > 0 {
      EmptyRows(g, nr, nc, player, m - 1, n);
      EmptyFullRow(g, nr, nc, player, m - 1, n);
    }
  }

  /** On an empty grid every fitting window is in bucket 0. */
  lemma EmptyGridCounts(g: Grid, nr: nat, nc: nat, player: Cell, n: int)
    requires Shaped(g, nr, nc) && AllEmpty(g, nr, nc) && player != Empty && 0 <= n < 5
    ensures CountOpenPositions(g, nr, nc, player)[n] == if n == 0 then LineCount(nr, nc) else 0
  {
    CountIsGridCount(g, nr, nc, player, n);
    EmptyRows(g, nr, nc, player, nr, n);
    RowsLinesClosed(nr, nc, nr);
  }

  /** A window that fits and holds four of the player's discs. */
  ghost predicate Complete(g: Grid, nr: nat, nc: nat, player: Cell, w: Window)
    requires Shaped(g, nr, nc)
  {
    WellPlaced(nr, nc, w) && Fits(nr, nc, w) && Entries(g, nr, nc, w) == [player, player, player, player]
  }

  /** Four entries holding four player discs are all the player's. */
  lemma FullWindow(e: seq<Cell>, player: Cell)
    requires |e| == 4 && player != Empty
    ensures (Opponent(player) !in e && CountElement(e, player) == 4) <==> e == [player, player, player, player]
  {
    var e1, e2, e3 := e[1..], e[2..], e[3..];
    assert e1[1..] == e2 && e2[1..] == e3 && e3[1..] == [];
    assert CountElement(e3, player) == if e[3] == player then 1 else 0;
    assert CountElement(e2, player) == (if e[2] == player then 1 else 0) + CountElement(e3, player);
    assert CountElement(e1, player) == (if e[1] == player then 1 else 0) + CountElement(e2, player);
  }

  /** Bucket 4 is nonzero exactly when some window is four of the player's discs. */
  lemma FourBucket(g: Grid, nr: nat, nc: nat, player: Cell)
    requires Shaped(g, nr, nc) && player != Empty
    ensures CountOpenPositions(g, nr, nc, player)[4] > 0 <==> exists w :: Complete(g, nr, nc, player, w)
  {
    var ws := AllWindows(nr, nc);
    BucketWitness(g, nr, nc, player, ws, 4);
    AllWindowsShape(nr, nc);
    if CountOpenPositions(g, nr, nc, player)[4] > 0 {
      var i :| 0 <= i < |ws| && Examined(g, nr, nc, player, ws[i]) && CountElement(Entries(g, nr, nc, ws[i]), player) == 4;
      FullWindow(Entries(g, nr, nc, ws[i]), player);
      assert Complete(g, nr, nc, player, ws[i]);
    }
    if w :| Complete(g, nr, nc, player, w) {
      assert w in ws;
      var i :| 0 <= i < |ws| && ws[i] == w;
      FullWindow(Entries(g, nr, nc, w), player);
      assert Examined(g, nr, nc, player, ws[i]);
    }
  }
}
