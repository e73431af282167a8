/** The terminal front end: the start of a game, and the manual and random tours driven
    from typed coordinates. Typed coordinates are 1-based; the drivers work 0-based. */
module Terminal {
  import opened Grid
  import opened Moves
  import opened Tour
  import opened Board
  import opened Knight

  /** The typed 1-based squares, each shifted to the 0-based square the driver tries. */
  function ZeroBased(inputs: seq<Pos>): (r: seq<Pos>)
    ensures |r| == |inputs|
    // Element-wise form of the comprehension, so that callers see each entry without unfolding it.
    ensures forall i :: 0 <= i < |inputs| ==> r[i] == Pos(inputs[i].x - 1, inputs[i].y - 1)
  {
    seq(|inputs|, i requires 0 <= i < |inputs| => Pos(inputs[i].x - 1, inputs[i].y - 1))
  }

  /** The square tried for typed entry i is on the board exactly when both typed
      coordinates are in 1..size, and then marking it (`mark_square(current_x + 1,
      current_y + 1, move)`) writes the very square that was typed. */
  lemma ZeroBasedTargets(inputs: seq<Pos>, grid: seq<seq<int>>, size: int, i: int, m: int)
    requires WellFormed(grid, size) && 0 <= i < |inputs|
    ensures InBounds(ZeroBased(inputs)[i], size) <==> 1 <= inputs[i].x <= size && 1 <= inputs[i].y <= size
    ensures InBounds(ZeroBased(inputs)[i], size) ==>
      Mark(grid, size, ZeroBased(inputs)[i].x + 1, ZeroBased(inputs)[i].y + 1, m) == Mark(grid, size, inputs[i].x, inputs[i].y, m)
  {
  }

  /** The game started at the typed square (0, 1) on the 8x8 board, as written: the
      opening order lands on square (7, 0) of the last column, while the knight's moves
      are generated from (-1, 0), a column off the board. The first of those moves,
      (0, 2), is no knight's move from the marked square, so the tour the board records
      is broken from its first move. */
  lemma StartAtColumnZeroAsWritten()
    ensures MarkAsWritten(Zeros(8), 8, 0, 1, 1)[0][7] == 1
    ensures !InBounds(Pos(0 - 1, 1 - 1), 8)
    ensures ValidMoves(MarkAsWritten(Zeros(8), 8, 0, 1, 1), 8, 0 - 1, 1 - 1) == [Pos(0, 2), Pos(1, 1)]
    ensures !IsKnightVector(Pos(0 - 7, 2 - 0))
  {
    var g := MarkAsWritten(Zeros(8), 8, 0, 1, 1);
    assert g == Mark(Zeros(8), 8, 8, 1, 1);
    assert g[2][0] == 0 && g[1][1] == 0;
  }

  class TerminalInterface {
    const chessboard: Chessboard
    const knightTour: KnightTour

    constructor (chessboard: Chessboard, knightTour: KnightTour)
      ensures this.chessboard == chessboard && this.knightTour == knightTour
    {
      this.chessboard := chessboard;
      this.knightTour := knightTour;
    }

    /** `move += 1` and `mark_square(x + 1, y + 1, move)`: the knight arrives on the
        0-based square (x, y) with the next order. */
    method Arrive(x: int, y: int)
      requires chessboard.Valid() && InBounds(Pos(x, y), chessboard.size)
      modifies chessboard
      ensures chessboard.Valid() && chessboard.move == old(chessboard.move) + 1
      ensures chessboard.board == Mark(old(chessboard.board), chessboard.size, x + 1, y + 1, chessboard.move)
    {
      chessboard.move := chessboard.move + 1;
      chessboard.MarkSquare(x + 1, y + 1, chessboard.move);
    }

    /** One attempt of `manual`: when `is_valid_move` accepts the 0-based target, the
        knight moves there and arrives with the next order; otherwise nothing changes. The
        new state is ManualStep of the old one, and the board still records the tour. */
    method ManualAttempt(currentX: int, currentY: int, newX: int, newY: int, ghost path: seq<Pos>)
      returns (currentX': int, currentY': int, ghost path': seq<Pos>)
      requires knightTour.chessboard == chessboard
      requires chessboard.Valid() && IsTour(chessboard.board, chessboard.size, path) && path != []
      requires Last(path) == Pos(currentX, currentY) && chessboard.move == |path|
      modifies chessboard
      ensures chessboard.Valid() && IsTour(chessboard.board, chessboard.size, path')
      ensures path' == path || path' == path + [Pos(newX, newY)]
      ensures |path'| == chessboard.move && Last(path') == Pos(currentX', currentY')
      ensures Play(chessboard.board, chessboard.move, Last(path')) ==
              ManualStep(chessboard.size, Play(old(chessboard.board), old(chessboard.move), Last(path)), Pos(newX, newY))
    {
      ghost var before := Play(chessboard.board, chessboard.move, Last(path));
      ManualStepKeepsTour(chessboard.size, before, path, Pos(newX, newY));
      ghost var after := ManualStep(chessboard.size, before, Pos(newX, newY));
      currentX', currentY', path' := currentX, currentY, path;
      var valid := knightTour.IsValidMove(currentX, currentY, newX, newY);
      if valid {
        currentX', currentY' := newX, newY;
        path' := path + [Pos(newX, newY)];
        Arrive(currentX', currentY');
      }
      assert Play(chessboard.board, chessboard.move, Last(path')) == after;
    }

    /** `manual(start_x, start_y)`: from the 1-based start, each typed square is shifted
        to 0-based and tried (ManualAttempt). The loop ends when the knight has no move or
        the typed squares run out; the state is then the run of the squares read, and the
        board records the tour. */
    method Manual(startX: int, startY: int, inputs: seq<Pos>, ghost path: seq<Pos>) returns (read: nat, ghost path': seq<Pos>)
      requires knightTour.chessboard == chessboard
      requires chessboard.Valid() && IsTour(chessboard.board, chessboard.size, path) && path != []
      requires Last(path) == Pos(startX - 1, startY - 1) && chessboard.move == |path|
      modifies chessboard
      ensures chessboard.Valid() && IsTour(chessboard.board, chessboard.size, path')
      ensures path' != [] && path <= path' && |path'| == chessboard.move
      ensures read <= |inputs|
      ensures ValidMoves(chessboard.board, chessboard.size, Last(path').x, Last(path').y) == [] || read == |inputs|
      ensures Play(chessboard.board, chessboard.move, Last(path')) ==
              ManualRun(chessboard.size, Play(old(chessboard.board), old(chessboard.move), Last(path)), ZeroBased(inputs), read)
    {
      ghost var first := Play(chessboard.board, chessboard.move, Last(path));
      var currentX, currentY := startX - 1, startY - 1;
      path' := path;
      read := 0;
      var moves := knightTour.NextValidMoves(currentX, currentY);
      while |moves| > 0 && read < |inputs|
        invariant chessboard.Valid() && IsTour(chessboard.board, chessboard.size, path')
        invariant path' != [] && path <= path' && |path'| == chessboard.move
        invariant Last(path') == Pos(currentX, currentY) && read <= |inputs|
        invariant moves == ValidMoves(chessboard.board, chessboard.size, currentX, currentY)
        invariant Play(chessboard.board, chessboard.move, Last(path')) == ManualRun(chessboard.size, first, ZeroBased(inputs), read)
        decreases |inputs| - read
      {
        var newX := inputs[read].x - 1;
        var newY := inputs[read].y - 1;
        read := read + 1;
        currentX, currentY, path' := ManualAttempt(currentX, currentY, newX, newY, path');
        moves := knightTour.NextValidMoves(currentX, currentY);
      }
    }

    /** One step of `random`: a second `next_valid_moves` call, an arbitrary move among
        them, and the knight's arrival there with the next order. The tour grows by that
        move and one unvisited square fewer is left. */
    method RandomStep(currentX: int, currentY: int, ghost path: seq<Pos>) returns (newMove: Pos, ghost path': seq<Pos>)
      requires knightTour.chessboard == chessboard
      requires chessboard.Valid() && IsTour(chessboard.board, chessboard.size, path) && path != []
      requires Last(path) == Pos(currentX, currentY) && chessboard.move == |path|
      requires ValidMoves(chessboard.board, chessboard.size, currentX, currentY) != []
      modifies chessboard
      ensures chessboard.Valid() && IsTour(chessboard.board, chessboard.size, path')
      ensures path' == path + [newMove] && |path'| == chessboard.move
      ensures InBounds(newMove, chessboard.size) && newMove !in path
      ensures IsKnightVector(Pos(newMove.x - currentX, newMove.y - currentY))
      ensures CountZeros(chessboard.board) < old(CountZeros(chessboard.board))
    {
      ghost var grid, order := chessboard.board, chessboard.move + 1;
      var choices := knightTour.NextValidMoves(currentX, currentY);
      // random.choice(...)
      var i :| 0 <= i < |choices|;
      newMove := choices[i];
      AdvanceTour(grid, chessboard.size, path, newMove, order);
      ghost var marked := Mark(grid, chessboard.size, newMove.x + 1, newMove.y + 1, order);
      path' := path + [newMove];
      Arrive(newMove.x, newMove.y);
      assert chessboard.board == marked;
    }

    /** `random(start_x, start_y)`: from the 1-based start, the knight takes an arbitrary
        generated move (RandomStep) while it has one. It ends with no move left, and the
        board records the tour. */
    method Random(startX: int, startY: int, ghost path: seq<Pos>) returns (ghost path': seq<Pos>)
      requires knightTour.chessboard == chessboard
      requires chessboard.Valid() && IsTour(chessboard.board, chessboard.size, path) && path != []
      requires Last(path) == Pos(startX - 1, startY - 1) && chessboard.move == |path|
      modifies chessboard
      ensures chessboard.Valid() && IsTour(chessboard.board, chessboard.size, path')
      ensures path' != [] && path <= path' && |path'| == chessboard.move
      ensures ValidMoves(chessboard.board, chessboard.size, Last(path').x, Last(path').y) == []
      ensures VisitOrdersExact(chessboard.board, chessboard.size, chessboard.move) && chessboard.move <= Area(chessboard.size)
    {
      var currentX, currentY := startX - 1, startY - 1;
      path' := path;
      var moves := knightTour.NextValidMoves(currentX, currentY);
      while |moves| > 0
        invariant chessboard.Valid() && IsTour(chessboard.board, chessboard.size, path')
        invariant path' != [] && path <= path' && |path'| == chessboard.move
        invariant Last(path') == Pos(currentX, currentY)
        invariant moves == ValidMoves(chessboard.board, chessboard.size, currentX, currentY)
        decreases CountZeros(chessboard.board)
      {
        var newMove: Pos;
        newMove, path' := RandomStep(currentX, currentY, path');
        currentX, currentY := newMove.x, newMove.y;
        moves := knightTour.NextValidMoves(currentX, currentY);
      }
      TourVisitOrders(chessboard.board, chessboard.size, path');
    }

    /** `game()` once the mode and the 1-based start are typed: mode 1 runs the manual
        tour on `inputs`, mode 2 the random tour, after `move = 1` and
        `mark_square(start_x, start_y, move)`. Any other mode, and a start off the board,
        starts nothing and changes nothing. */
    method Game(tourType: int, startX: int, startY: int, inputs: seq<Pos>) returns (started: bool, read: nat, ghost path: seq<Pos>)
      requires knightTour.chessboard == chessboard
      requires chessboard.Valid() && AllZero(chessboard.board)
      modifies chessboard
      ensures started <==> (tourType == 1 || tourType == 2) && InBounds(Pos(startX - 1, startY - 1), chessboard.size)
      ensures !started ==> chessboard.board == old(chessboard.board) && chessboard.move == old(chessboard.move) && read == 0
      ensures started ==>
        chessboard.Valid() && IsTour(chessboard.board, chessboard.size, path) &&
        path != [] && path[0] == Pos(startX - 1, startY - 1) && |path| == chessboard.move
      ensures started && tourType == 2 ==>
        read == 0 && ValidMoves(chessboard.board, chessboard.size, Last(path).x, Last(path).y) == []
      ensures started && tourType == 1 ==>
        read <= |inputs| &&
        (ValidMoves(chessboard.board, chessboard.size, Last(path).x, Last(path).y) == [] || read == |inputs|) &&
        Play(chessboard.board, chessboard.move, Last(path)) ==
        ManualRun(chessboard.size, Play(Mark(old(chessboard.board), chessboard.size, startX, startY, 1), 1, Pos(startX - 1, startY - 1)),
                  ZeroBased(inputs), read)
    {
      started, read, path := false, 0, [];
      if tourType != 1 && tourType != 2 {
        return;
      }
      if !(1 <= startX <= chessboard.size && 1 <= startY <= chessboard.size) {
        return;
      }
      var start := Pos(startX - 1, startY - 1);
      ghost var opening := Mark(chessboard.board, chessboard.size, startX, startY, 1);
      StartTour(chessboard.board, chessboard.size, start);
      chessboard.move := 1;
      chessboard.MarkSquare(startX, startY, chessboard.move);
      assert chessboard.board == opening;
      started := true;
      if tourType == 1 {
        read, path := Manual(startX, startY, inputs, [start]);
      } else {
        path := Random(startX, startY, [start]);
      }
    }
  }
}
