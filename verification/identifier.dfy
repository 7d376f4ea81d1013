/** The positional state identifier of connectfour.py: every cell's entry code
    weighted by 3^(row + col * ROWS) and summed (state_identifier), and the
    incremental form that adds one weighted code (next_state_identifier). */
module Identifiers {
  import opened Wrappers
  import opened Grids

  /** The integer code the source stores for an entry: EMPTY 0, WHITE 1, RED 2. */
  function Code(x: Cell): nat {
    match x
    case Empty => 0
    case White => 1
    case Red => 2
  }

  function Pow3(k: nat): nat {
    if k == 0 then 1 else 3 * Pow3(k - 1)
  }

  /** Number of cells on the board. */
  const Cells: int := Rows * Columns

  /** hash_matrix[row, col]: 3^(row + col * ROWS). */
  function HashWeight(r: nat, c: nat): nat {
    Pow3(r + c * Rows)
  }

  /** The cell whose hash weight is 3^k (column-major order). */
  function FlatCell(g: Grid, k: nat): Cell
    requires IsBoardGrid(g) && k < Cells
  {
    g[k % Rows][k / Rows]
  }

  /** Sum of hash weight times entry code over the cells with weights 3^k .. 3^(Cells-1). */
  function WeightedSum(g: Grid, k: nat): int
    requires IsBoardGrid(g) && k <= Cells
    decreases Cells - k
  {
    if k == Cells then 0 else Code(FlatCell(g, k)) * Pow3(k) + WeightedSum(g, k + 1)
  }

  /** state_identifier: the sum of hash_matrix * grid over the whole board,
      in unbounded integers. */
  function StateIdentifier(g: Grid): int
    requires IsBoardGrid(g)
  {
    WeightedSum(g, 0)
  }

  /** The codes of cells k .. Cells-1 read as base-3 digits, least significant first. */
  function Digits(g: Grid, k: nat): nat
    requires IsBoardGrid(g) && k <= Cells
    decreases Cells - k
  {
    if k == Cells then 0 else Code(FlatCell(g, k)) + 3 * Digits(g, k + 1)
  }

  lemma {:induction false} WeightedSumIsScaledDigits(g: Grid, k: nat)
    requires IsBoardGrid(g) && k <= Cells
    ensures WeightedSum(g, k) == Pow3(k) * Digits(g, k)
    decreases Cells - k
  {
    if k < Cells {
      WeightedSumIsScaledDigits(g, k + 1);
      var d, p, rest := Code(FlatCell(g, k)), Pow3(k), Digits(g, k + 1);
      assert WeightedSum(g, k) == d * p + WeightedSum(g, k + 1);
      assert Pow3(k + 1) == 3 * p;
      assert Digits(g, k) == d + 3 * rest;
      ScaleStep(d, p, rest);
    }
  }

  lemma ScaleStep(d: int, p: int, rest: int)
    ensures d * p + (3 * p) * rest == p * (d + 3 * rest)
  {
  }

  /** A base-3 digit and the number above it are determined by their sum. */
  lemma Base3Split(d1: nat, h1: nat, d2: nat, h2: nat)
    requires d1 < 3 && d2 < 3 && d1 + 3 * h1 == d2 + 3 * h2
    ensures d1 == d2 && h1 == h2
  {
  }

  lemma CodeInjective(x: Cell, y: Cell)
    ensures Code(x) == Code(y) <==> x == y
  {
  }

  lemma {:induction false} DigitsDetermineCells(g1: Grid, g2: Grid, k: nat)
    requires IsBoardGrid(g1) && IsBoardGrid(g2) && k <= Cells
    requires Digits(g1, k) == Digits(g2, k)
    ensures forall j :: k <= j < Cells ==> FlatCell(g1, j) == FlatCell(g2, j)
    decreases Cells - k
  {
    if k < Cells {
      Base3Split(Code(FlatCell(g1, k)), Digits(g1, k + 1), Code(FlatCell(g2, k)), Digits(g2, k + 1));
      CodeInjective(FlatCell(g1, k), FlatCell(g2, k));
      DigitsDetermineCells(g1, g2, k + 1);
    }
  }

  /** Cell (r, c) carries the weight 3^(r + c * Rows). */
  lemma FlatCellAt(g: Grid, r: int, c: int)
    requires IsBoardGrid(g) && InBounds(Rows, Columns, r, c)
    ensures 0 <= r + c * Rows < Cells && FlatCell(g, r + c * Rows) == g[r][c]
  {
    var k := r + c * Rows;
    assert k / Rows == c && k % Rows == r;
  }

  /** Two boards have the same identifier exactly when they are the same grid. */
  lemma StateIdentifierInjective(g1: Grid, g2: Grid)
    requires IsBoardGrid(g1) && IsBoardGrid(g2)
    ensures StateIdentifier(g1) == StateIdentifier(g2) <==> g1 == g2
  {
    if StateIdentifier(g1) == StateIdentifier(g2) {
      WeightedSumIsScaledDigits(g1, 0);
      WeightedSumIsScaledDigits(g2, 0);
      assert Pow3(0) == 1;
      SameDigitsSameGrid(g1, g2);
    }
  }

  /** Two grids read as the same base-3 number are the same grid. */
  lemma SameDigitsSameGrid(g1: Grid, g2: Grid)
    requires IsBoardGrid(g1) && IsBoardGrid(g2) && Digits(g1, 0) == Digits(g2, 0)
    ensures g1 == g2
  {
    DigitsDetermineCells(g1, g2, 0);
    forall r | 0 <= r < Rows
      ensures g1[r] == g2[r]
    {
      forall c | 0 <= c < Columns
        ensures g1[r][c] == g2[r][c]
      {
        FlatCellAt(g1, r, c);
        FlatCellAt(g2, r, c);
      }
    }
  }

  /** Writing x over the empty cell (r, c) adds its hash weight times the code of x
      to every partial sum that includes that cell. */
  lemma {:induction false} WeightedSumOfDrop(g: Grid, r: int, c: int, x: Cell, k: nat)
    requires IsBoardGrid(g) && InBounds(Rows, Columns, r, c) && g[r][c] == Empty && k <= Cells
    ensures IsBoardGrid(g[r := g[r][c := x]])
    ensures WeightedSum(g[r := g[r][c := x]], k)
            == WeightedSum(g, k) + (if k <= r + c * Rows then HashWeight(r, c) * Code(x) else 0)
    decreases Cells - k
  {
    var g' := g[r := g[r][c := x]];
    if k < Cells {
      WeightedSumOfDrop(g, r, c, x, k + 1);
      FlatCellAt(g, r, c);
      FlatCellAt(g', r, c);
      if k != r + c * Rows {
        assert k == k % Rows + (k / Rows) * Rows;
        assert FlatCell(g', k) == FlatCell(g, k);
      }
    }
  }

  lemma StateIdentifierOfDrop(g: Grid, r: int, c: int, x: Cell)
    requires IsBoardGrid(g) && InBounds(Rows, Columns, r, c) && g[r][c] == Empty
    ensures IsBoardGrid(g[r := g[r][c := x]])
    ensures StateIdentifier(g[r := g[r][c := x]]) == StateIdentifier(g) + HashWeight(r, c) * Code(x)
  {
    WeightedSumOfDrop(g, r, c, x, 0);
  }

  // The hash matrix is allocated with dtype 'i8', whose entries hold
  // -2^63 .. 2^63 - 1.

  const Int64Max: int := 0x7FFF_FFFF_FFFF_FFFF

  /** Storing a Python integer into an 'i8' entry. None stands for the
      OverflowError numpy raises when the integer does not fit. */
  function StoreInt64(x: int): Option<int> {
    if -Int64Max - 1 <= x <= Int64Max then Some(x) else None
  }

  /** The hash matrix entry (r, c) as the constructor fills it. */
  function HashMatrixEntry(r: nat, c: nat): Option<int> {
    StoreInt64(HashWeight(r, c))
  }

  lemma {:induction false} Pow3Add(a: nat, b: nat)
    ensures Pow3(a + b) == Pow3(a) * Pow3(b)
    decreases b
  {
    if b > 0 {
      Pow3Add(a, b - 1);
      assert Pow3(a + b) == 3 * Pow3(a + b - 1);
      assert Pow3(a) * Pow3(b) == Pow3(a) * (3 * Pow3(b - 1));
    }
  }

  lemma Pow3Values()
    ensures Pow3(39) == 4052555153018976267
    ensures Pow3(40) == 12157665459056928801
    ensures Pow3(41) == 36472996377170786403
  {
    assert Pow3(5) == 243;
    Pow3Add(5, 5);
    Pow3Add(10, 10);
    Pow3Add(20, 20);
    assert Pow3(41) == 3 * Pow3(40);
  }

  /** Counterexample: the weights of cells (4, 6) and (5, 6), 3^40 and 3^41, do not fit. */
  lemma HashMatrixOverflows()
    ensures HashMatrixEntry(4, 6).None? && HashMatrixEntry(5, 6).None?
  {
    Pow3Values();
  }

  lemma {:induction false} Pow3Monotone(i: nat, j: nat)
    requires i <= j
    ensures Pow3(i) <= Pow3(j)
    decreases j - i
  {
    if i < j {
      Pow3Monotone(i, j - 1);
    }
  }

  /** Every other weight fits: exactly the two top cells of the last column overflow. */
  lemma HashMatrixEntryFits(r: int, c: int)
    requires InBounds(Rows, Columns, r, c)
    ensures HashMatrixEntry(r, c).Some? <==> r + c * Rows < 40
  {
    if r + c * Rows < 40 {
      Pow3Monotone(r + c * Rows, 39);
      Pow3Values();
    } else {
      Pow3Monotone(40, r + c * Rows);
      HashMatrixOverflows();
    }
  }

  /** The constructor's fill loop, row by row and column by column from the k-th
      cell (row k / COLUMNS, column k % COLUMNS): the first cell whose weight
      raises OverflowError, or None when the loop completes. */
  function FirstOverflow(k: nat): (o: Option<(int, int)>)
    ensures o.Some? ==> InBounds(Rows, Columns, o.value.0, o.value.1)
                        && HashMatrixEntry(o.value.0, o.value.1).None?
    decreases Rows * Columns - k
  {
    if k >= Rows * Columns then None
    else if HashMatrixEntry(k / Columns, k % Columns).None? then Some((k / Columns, k % Columns))
    else FirstOverflow(k + 1)
  }

  /** Counterexample, as the constructor runs: from any cell up to (4, 6) the
      loop reaches (4, 6) and raises there, so ConnectFour() never returns. */
  lemma {:induction false} FillRaisesFrom(k: nat)
    requires k <= 4 * Columns + 6
    ensures FirstOverflow(k) == Some((4, 6))
    decreases 4 * Columns + 6 - k
  {
    var r, c := k / Columns, k % Columns;
    HashMatrixEntryFits(r, c);
    if k < 4 * Columns + 6 {
      assert r + c * Rows < 40;
      FillRaisesFrom(k + 1);
    }
  }

  lemma ConstructorRaises()
    ensures FirstOverflow(0) == Some((4, 6))
  {
    FillRaisesFrom(0);
  }
}
