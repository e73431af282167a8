/** The mutable board the knight moves across. */
module Board {
  import opened Grid

  class Chessboard {
    /** The board's side length; fixed for the board's lifetime. */
    const size: nat
    /** board[y][x] is the visit order of square (x, y), 0 when unvisited. */
    var board: seq<seq<int>>
    /** The current move number. */
    var move: int

    /** The rows keep the board's dimensions. */
    predicate Valid()
      reads this
    {
      WellFormed(board, size)
    }

    /** A new board: `size` rows of `size` zeros, built row by row; move 0. */
    constructor (size: nat)
      ensures this.size == size && board == Zeros(size) && move == 0
      ensures Valid()
    {
      this.size := size;
      var rows: seq<seq<int>> := [];
      for row := 0 to size
        invariant |rows| == row
        invariant forall r :: 0 <= r < row ==> rows[r] == Zeros(size)[r]
      {
        rows := rows + [[]];
        for column := 0 to size
          invariant |rows| == row + 1
          invariant forall r :: 0 <= r < row ==> rows[r] == Zeros(size)[r]
          invariant rows[row] == Zeros(size)[row][..column]
        {
          rows := rows[row := rows[row] + [0]];
        }
      }
      board := rows;
      move := 0;
    }

    /** Writes visit order m into the 1-based square (x, y); nothing else changes. */
    method MarkSquare(x: int, y: int, m: int)
      requires Valid()
      requires 1 <= x <= size && 1 <= y <= size
      modifies this
      ensures Valid()
      ensures board == Mark(old(board), size, x, y, m)
      ensures move == old(move)
    {
      board := board[y - 1 := board[y - 1][x - 1 := m]];
    }

    /** Zeroes every cell of every row in place and sets move to 0. */
    method ResetBoard()
      modifies this
      ensures board == ZeroedLike(old(board)) && move == 0
      ensures old(Valid()) ==> Valid() && board == Zeros(size)
    {
      var row := 0;
      while row < |board|
        invariant 0 <= row <= |board| == |old(board)|
        invariant forall r :: 0 <= r < row ==> board[r] == ZeroedLike(old(board))[r]
        invariant forall r :: row <= r < |board| ==> board[r] == old(board)[r]
      {
        var column := 0;
        while column < |board[row]|
          invariant |board| == |old(board)| && row < |board|
          invariant 0 <= column <= |board[row]| == |old(board)[row]|
          invariant forall r :: 0 <= r < row ==> board[r] == ZeroedLike(old(board))[r]
          invariant forall r :: row < r < |board| ==> board[r] == old(board)[r]
          invariant board[row][..column] == ZeroedLike(old(board))[row][..column]
          invariant board[row][column..] == old(board)[row][column..]
        {
          board := board[row := board[row][column := 0]];
          column := column + 1;
        }
        assert board[row] == board[row][..column];
        row := row + 1;
      }
      assert board == ZeroedLike(old(board));
      move := 0;
      if old(Valid()) {
        ZeroedLikeKeepsSize(old(board), size);
      }
    }
  }
}
