/** Values of the chessboard: a square grid of visit orders, rows indexed by y
    and columns by x, where 0 means "not visited yet". */
module Grid {

  /** A square identified by its column x and row y. */
  datatype Pos = Pos(x: int, y: int)

  /** `grid` has `size` rows of `size` cells each. */
  predicate WellFormed(grid: seq<seq<int>>, size: int)
  {
    |grid| == size && forall r :: 0 <= r < |grid| ==> |grid[r]| == size
  }

  /** The 0-based square p lies on a board of the given size. */
  predicate InBounds(p: Pos, size: int)
  {
    0 <= p.x < size && 0 <= p.y < size
  }

  /** Every cell of every row holds 0. */
  predicate AllZero(grid: seq<seq<int>>)
  {
    forall r, c :: 0 <= r < |grid| && 0 <= c < |grid[r]| ==> grid[r][c] == 0
  }

  /** The board a new Chessboard(size) holds. */
  function Zeros(size: nat): (g: seq<seq<int>>)
    ensures WellFormed(g, size) && AllZero(g)
  {
    seq(size, _ => seq(size, _ => 0))
  }

  /** The grid `reset_board` leaves: same number of rows, each of its old length, all 0. */
  function ZeroedLike(grid: seq<seq<int>>): (g: seq<seq<int>>)
    ensures |g| == |grid| && AllZero(g)
    ensures forall r :: 0 <= r < |grid| ==> |g[r]| == |grid[r]|
  {
    seq(|grid|, r requires 0 <= r < |grid| => seq(|grid[r]|, _ => 0))
  }

  /** `mark_square(x, y, m)`: x and y are 1-based, the cell written is grid[y-1][x-1]. */
  function Mark(grid: seq<seq<int>>, size: int, x: int, y: int, m: int): (g: seq<seq<int>>)
    requires WellFormed(grid, size)
    requires 1 <= x <= size && 1 <= y <= size
    ensures WellFormed(g, size)
    ensures g[y - 1][x - 1] == m
    ensures forall r, c :: 0 <= r < size && 0 <= c < size && (r != y - 1 || c != x - 1) ==> g[r][c] == grid[r][c]
  {
    grid[y - 1 := grid[y - 1][x - 1 := m]]
  }

  /** Python list indexing into a list of length n: an index in [-n, 0) counts from the end. */
  function PyIndex(i: int, n: nat): (r: int)
    requires 0 <= i + n && i < n
    ensures 0 <= r < n
    ensures r % n == i % n
  {
    if i < 0 then n + i else i
  }

  /** `mark_square(x, y, m)` as Python executes it for any x and y it does not reject:
      it writes board[y - 1][x - 1], so x = 0 or y = 0 reaches the last column or row. */
  function MarkAsWritten(grid: seq<seq<int>>, size: nat, x: int, y: int, m: int): (g: seq<seq<int>>)
    requires WellFormed(grid, size)
    requires 1 - size <= x <= size && 1 - size <= y <= size
    ensures WellFormed(g, size)
    ensures 1 <= x && 1 <= y ==> g == Mark(grid, size, x, y, m)
  {
    Mark(grid, size, PyIndex(x - 1, size) + 1, PyIndex(y - 1, size) + 1, m)
  }

  /** Number of cells holding 0 among the first n cells of a row. */
  function ZerosIn(row: seq<int>, n: nat): nat
    requires n <= |row|
  {
    if n == 0 then 0 else ZerosIn(row, n - 1) + (if row[n - 1] == 0 then 1 else 0)
  }

  /** Number of cells holding 0 in one row. */
  function RowZeros(row: seq<int>): nat
  {
    ZerosIn(row, |row|)
  }

  /** Number of unvisited cells in the first n rows of the grid. */
  function ZerosInRows(grid: seq<seq<int>>, n: nat): nat
    requires n <= |grid|
  {
    if n == 0 then 0 else ZerosInRows(grid, n - 1) + RowZeros(grid[n - 1])
  }

  /** Number of unvisited cells of the grid. */
  function CountZeros(grid: seq<seq<int>>): nat
  {
    ZerosInRows(grid, |grid|)
  }

  lemma {:induction false} ZerosInAllZero(row: seq<int>, n: nat)
    requires n <= |row| && forall c :: 0 <= c < |row| ==> row[c] == 0
    ensures ZerosIn(row, n) == n
  {
    if n > 0 {
      ZerosInAllZero(row, n - 1);
    }
  }

  lemma {:induction false} ZerosInRowsAllZero(grid: seq<seq<int>>, n: nat, k: nat)
    requires k <= |grid| && AllZero(grid)
    requires forall r :: 0 <= r < |grid| ==> |grid[r]| == n
    ensures ZerosInRows(grid, k) == k * n
  {
    if k > 0 {
      ZerosInRowsAllZero(grid, n, k - 1);
      ZerosInAllZero(grid[k - 1], n);
      calc {
        ZerosInRows(grid, k);
        ZerosInRows(grid, k - 1) + RowZeros(grid[k - 1]);
        (k - 1) * n + n;
        k * n;
      }
    }
  }

  /** A grid of zeros with rows of length n has |grid| * n zero cells. */
  lemma CountZerosAllZero(grid: seq<seq<int>>, n: nat)
    requires AllZero(grid)
    requires forall r :: 0 <= r < |grid| ==> |grid[r]| == n
    ensures CountZeros(grid) == |grid| * n
  {
    ZerosInRowsAllZero(grid, n, |grid|);
  }

  /** Writing a nonzero value over a 0 at index i removes one zero from every prefix
      that covers i, and leaves shorter prefixes alone. */
  lemma {:induction false} ZerosInFill(row: seq<int>, i: nat, v: int, n: nat)
    requires i < |row| && row[i] == 0 && v != 0 && n <= |row|
    ensures ZerosIn(row[i := v], n) + (if i < n then 1 else 0) == ZerosIn(row, n)
  {
    if n > 0 {
      ZerosInFill(row, i, v, n - 1);
    }
  }

  /** Replacing row y changes the count of every block of rows that covers y by the
      difference of the two rows' counts. */
  lemma {:induction false} ZerosInRowsReplace(grid: seq<seq<int>>, y: nat, row: seq<int>, n: nat)
    requires y < |grid| && n <= |grid|
    ensures ZerosInRows(grid[y := row], n) + (if y < n then RowZeros(grid[y]) else 0) ==
            ZerosInRows(grid, n) + (if y < n then RowZeros(row) else 0)
  {
    if n > 0 {
      ZerosInRowsReplace(grid, y, row, n - 1);
    }
  }

  /** Marking an unvisited cell with a nonzero order removes exactly one unvisited cell. */
  lemma MarkFillsOneZero(grid: seq<seq<int>>, size: int, x: int, y: int, m: int)
    requires WellFormed(grid, size)
    requires 1 <= x <= size && 1 <= y <= size
    requires grid[y - 1][x - 1] == 0 && m != 0
    ensures CountZeros(Mark(grid, size, x, y, m)) + 1 == CountZeros(grid)
  {
    var row := grid[y - 1][x - 1 := m];
    ZerosInFill(grid[y - 1], x - 1, m, |row|);
    ZerosInRowsReplace(grid, y - 1, row, |grid|);
  }

  /** The number of squares of a board of the given size, counted ring by ring: the
      board of side n is the board of side n - 1 plus an L of 2n - 1 squares. Defined
      without multiplication so that contracts using it stay in linear arithmetic. */
  function Area(size: int): nat
  {
    if size <= 0 then 0 else Area(size - 1) + 2 * size - 1
  }

  lemma {:induction false} AreaIsSquare(size: nat)
    ensures Area(size) == size * size
  {
    if size > 0 {
      AreaIsSquare(size - 1);
    }
  }

  /** A board of `size` rows of `size` zeros has Area(size) unvisited cells. */
  lemma EmptyBoardZeros(grid: seq<seq<int>>, size: nat)
    requires WellFormed(grid, size) && AllZero(grid)
    ensures CountZeros(grid) == Area(size)
  {
    CountZerosAllZero(grid, size);
    AreaIsSquare(size);
  }

  /** An all-zero grid of the right dimensions is the new board. */
  lemma AllZeroIsZeros(grid: seq<seq<int>>, size: nat)
    requires WellFormed(grid, size) && AllZero(grid)
    ensures grid == Zeros(size)
  {
    assert forall r :: 0 <= r < size ==> grid[r] == Zeros(size)[r];
  }

  /** Rewriting a cell with the value it already holds leaves the grid as it was. */
  lemma MarkSameValue(grid: seq<seq<int>>, size: int, p: Pos)
    requires WellFormed(grid, size) && InBounds(p, size)
    ensures Mark(grid, size, p.x + 1, p.y + 1, grid[p.y][p.x]) == grid
  {
    assert grid[p.y][p.x := grid[p.y][p.x]] == grid[p.y];
  }

  /** Resetting twice gives the same grid as resetting once. */
  lemma ZeroedLikeIdempotent(grid: seq<seq<int>>)
    ensures ZeroedLike(ZeroedLike(grid)) == ZeroedLike(grid)
  {
  }

  /** Resetting a well-formed board gives back the new board of the same size. */
  lemma ZeroedLikeKeepsSize(grid: seq<seq<int>>, size: nat)
    requires WellFormed(grid, size)
    ensures ZeroedLike(grid) == Zeros(size)
  {
  }
}
