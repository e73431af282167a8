/** The tour engine over a Chessboard: move generation, the tour driver in its
    manual, random and simulation modes, and the simulation loop. */
module Knight {
  import opened Grid
  import opened Moves
  import opened Tour
  import opened Board

  /** `counts[i]` is the length of the knight's path `paths[i]`, between 1 and the
      number of squares, for every recorded run, and each run went on until the knight
      was stuck. */
  ghost predicate Recorded(counts: seq<int>, paths: seq<seq<Pos>>, size: int)
  {
    |counts| == |paths| &&
    forall i :: 0 <= i < |counts| ==>
      1 <= counts[i] <= Area(size) && counts[i] == |paths[i]| && IsKnightPath(paths[i], size) &&
      EndsStuck(paths[i], size)
  }

  lemma RecordedSnoc(counts: seq<int>, paths: seq<seq<Pos>>, size: int, count: int, path: seq<Pos>)
    requires Recorded(counts, paths, size)
    requires 1 <= count <= Area(size) && count == |path| && IsKnightPath(path, size) && EndsStuck(path, size)
    ensures Recorded(counts + [count], paths + [path], size)
  {
    assert forall i :: 0 <= i < |counts| ==> (counts + [count])[i] == counts[i] && (paths + [path])[i] == paths[i];
  }

  class KnightTour {
    const chessboard: Chessboard

    constructor (chessboard: Chessboard)
      ensures this.chessboard == chessboard
    {
      this.chessboard := chessboard;
    }

    /** `next_valid_moves`: walks the offset table and keeps the open destinations. */
    method NextValidMoves(x: int, y: int) returns (validMoves: seq<Pos>)
      requires chessboard.Valid()
      ensures validMoves == ValidMoves(chessboard.board, chessboard.size, x, y)
    {
      validMoves := [];
      var positions := Positions;
      for position := 0 to |positions|
        invariant validMoves == MovesBefore(chessboard.board, chessboard.size, x, y, position)
      {
        var dy := positions[position];
        var dx := positions[|positions| - 1 - position];
        if y + dy < chessboard.size && y + dy > -1 && x + dx < chessboard.size && x + dx > -1 {
          if chessboard.board[y + dy][x + dx] == 0 {
            validMoves := validMoves + [Pos(x + dx, y + dy)];
          }
        }
      }
    }

    /** `is_valid_move`: the target is in the generated list, that is, it is on the
        board, unvisited and a knight's move from the current square. */
    method IsValidMove(currentX: int, currentY: int, x: int, y: int) returns (valid: bool)
      requires chessboard.Valid()
      ensures valid == Moves.IsValidMove(chessboard.board, chessboard.size, currentX, currentY, x, y)
    {
      var moves := NextValidMoves(currentX, currentY);
      valid := Pos(x, y) in moves;
    }

    /** The start of a pass of `random_tour`'s loop: the next order `move' == move + 1` is
        taken and `new_move` is picked. Outside manual play it is an arbitrary generated move.
        In manual play it is the next click, `clicks[clicksRead]`, when `is_valid_move` accepts
        it (the knight moves there); otherwise it is the knight's own square and the order goes
        back down to `move`, and marking `new_move` with `move'` is the run of the attempts
        read so far. */
    method ChooseNextMove(manualPlay: bool, newMoves: seq<Pos>, clicks: seq<Pos>, clicksRead: nat,
                          currentX: int, currentY: int, ghost path: seq<Pos>, ghost first: Play)
      returns (newMove: Pos, move': int, clicksRead': nat, currentX': int, currentY': int)
      requires chessboard.Valid() && IsTour(chessboard.board, chessboard.size, path) && path != []
      requires chessboard.move == |path|
      requires newMoves == ValidMoves(chessboard.board, chessboard.size, Last(path).x, Last(path).y) && |newMoves| > 0
      requires manualPlay ==>
        clicksRead < |clicks| && Last(path) == Pos(currentX, currentY) && WellFormed(first.board, chessboard.size) &&
        Play(chessboard.board, |path|, Last(path)) == ManualRun(chessboard.size, first, clicks, clicksRead)
      ensures InBounds(newMove, chessboard.size)
      ensures (newMove in newMoves && move' == |path| + 1) || (manualPlay && newMove == Last(path) && move' == |path|)
      ensures !manualPlay ==> newMove in newMoves && move' == |path| + 1 && clicksRead' == clicksRead
      ensures manualPlay ==>
        clicksRead' == clicksRead + 1 && newMove == Pos(currentX', currentY') &&
        Play(Mark(chessboard.board, chessboard.size, newMove.x + 1, newMove.y + 1, move'), move', newMove) ==
        ManualRun(chessboard.size, first, clicks, clicksRead')
    {
      move' := chessboard.move + 1;
      clicksRead', currentX', currentY' := clicksRead, currentX, currentY;
      if !manualPlay {
        // random.choice(new_moves)
        var i :| 0 <= i < |newMoves|;
        newMove := newMoves[i];
        ValidMovesSound(chessboard.board, chessboard.size, Last(path).x, Last(path).y);
      } else {
        var click := clicks[clicksRead];
        clicksRead' := clicksRead + 1;
        var valid := IsValidMove(currentX, currentY, click.x, click.y);
        if valid {
          newMove := Pos(click.x, click.y);
          currentX', currentY' := click.x, click.y;
        } else {
          newMove := Pos(currentX, currentY);
          move' := move' - 1;
        }
        ManualStepIs(chessboard.size, Play(chessboard.board, |path|, Last(path)), click, path);
      }
    }

    /** `move` takes the order chosen for `new_move` and `mark_square` records it. */
    method MarkMove(newMove: Pos, move: int)
      requires chessboard.Valid() && InBounds(newMove, chessboard.size)
      modifies chessboard
      ensures chessboard.Valid() && chessboard.move == move
      ensures chessboard.board == Mark(old(chessboard.board), chessboard.size, newMove.x + 1, newMove.y + 1, move)
    {
      chessboard.move := move;
      chessboard.MarkSquare(newMove.x + 1, newMove.y + 1, chessboard.move);
    }

    /** One pass of `random_tour`'s loop up to the marking: pick `new_move`
        (ChooseNextMove), then set `move` and mark `new_move` with it (MarkMove). The
        recorded tour is kept, extended by `new_move` unless a manual attempt was illegal,
        and in manual play the state is the run of the attempts read so far. */
    method TourPass(manualPlay: bool, newMoves: seq<Pos>, clicks: seq<Pos>, clicksRead: nat,
                    currentX: int, currentY: int, ghost path: seq<Pos>, ghost first: Play)
      returns (newMove: Pos, clicksRead': nat, currentX': int, currentY': int, ghost path': seq<Pos>)
      requires chessboard.Valid() && IsTour(chessboard.board, chessboard.size, path) && path != []
      requires chessboard.move == |path|
      requires newMoves == ValidMoves(chessboard.board, chessboard.size, Last(path).x, Last(path).y) && |newMoves| > 0
      requires manualPlay ==>
        clicksRead < |clicks| && Last(path) == Pos(currentX, currentY) && WellFormed(first.board, chessboard.size) &&
        Play(chessboard.board, |path|, Last(path)) == ManualRun(chessboard.size, first, clicks, clicksRead)
      modifies chessboard
      ensures chessboard.Valid() && IsTour(chessboard.board, chessboard.size, path')
      ensures path' != [] && Last(path') == newMove && chessboard.move == |path'|
      ensures path' == path || path' == path + [newMove]
      ensures CountZeros(chessboard.board) < old(CountZeros(chessboard.board)) ||
              (manualPlay && chessboard.board == old(chessboard.board))
      ensures !manualPlay ==> clicksRead' == clicksRead && path' == path + [newMove]
      ensures manualPlay ==>
        clicksRead' == clicksRead + 1 && newMove == Pos(currentX', currentY') &&
        Play(chessboard.board, chessboard.move, newMove) == ManualRun(chessboard.size, first, clicks, clicksRead')
    {
      var move: int;
      newMove, move, clicksRead', currentX', currentY' :=
        ChooseNextMove(manualPlay, newMoves, clicks, clicksRead, currentX, currentY, path, first);
      ghost var marked := Mark(chessboard.board, chessboard.size, newMove.x + 1, newMove.y + 1, move);
      StepKeepsTour(chessboard.board, chessboard.size, path, newMove, move);
      path' := if move == |path| + 1 then path + [newMove] else path;
      MarkMove(newMove, move);
      assert chessboard.board == marked;
    }

    /** `random_tour(manual, simulation)` on an empty board. Outside simulation the start is
        the clicked square `start`; in simulation it is an arbitrary square. In manual,
        non-simulation mode each entry of `clicks` is one attempt, in order, and the tour also
        ends when they run out. Every other mode picks an arbitrary generated move each step.
        Returns the number of attempts read and, as ghost, the knight's path. */
    method RandomTour(manual: bool, simulation: bool, start: Pos, clicks: seq<Pos>) returns (clicksRead: nat, ghost path: seq<Pos>)
      requires chessboard.Valid() && AllZero(chessboard.board)
      requires simulation ==> chessboard.size >= 1
      requires !simulation ==> InBounds(start, chessboard.size)
      modifies chessboard
      ensures chessboard.Valid()
      ensures IsTour(chessboard.board, chessboard.size, path) && path != [] && |path| == chessboard.move
      ensures VisitOrdersExact(chessboard.board, chessboard.size, chessboard.move) && chessboard.move <= Area(chessboard.size)
      ensures !simulation ==> path[0] == start
      ensures clicksRead <= |clicks| && (!(manual && !simulation) ==> clicksRead == 0)
      ensures ValidMoves(chessboard.board, chessboard.size, Last(path).x, Last(path).y) == [] ||
              (manual && !simulation && clicksRead == |clicks|)
      ensures manual && !simulation ==>
        Play(chessboard.board, chessboard.move, Last(path)) ==
        ManualRun(chessboard.size, Play(Mark(old(chessboard.board), chessboard.size, start.x + 1, start.y + 1, 1), 1, start),
                  clicks, clicksRead)
    {
      var startX: int, startY: int;
      if !simulation {
        startX, startY := start.x, start.y;
      } else {
        // random.randint(0, size - 1), twice
        startX :| 0 <= startX < chessboard.size;
        startY :| 0 <= startY < chessboard.size;
      }

      ghost var first := Play(Mark(chessboard.board, chessboard.size, startX + 1, startY + 1, 1), 1, Pos(startX, startY));
      chessboard.move := 1;
      StartTour(chessboard.board, chessboard.size, Pos(startX, startY));
      chessboard.MarkSquare(startX + 1, startY + 1, chessboard.move);
      assert chessboard.board == first.board;
      path := [Pos(startX, startY)];

      var newMoves := NextValidMoves(startX, startY);
      var currentX, currentY := startX, startY;
      var manualPlay := manual && !simulation;
      clicksRead := 0;

      while |newMoves| > 0 && (!manualPlay || clicksRead < |clicks|)
        invariant chessboard.Valid()
        invariant IsTour(chessboard.board, chessboard.size, path) && path != [] && |path| == chessboard.move
        invariant path[0] == Pos(startX, startY)
        invariant newMoves == ValidMoves(chessboard.board, chessboard.size, Last(path).x, Last(path).y)
        invariant clicksRead <= |clicks| && (!manualPlay ==> clicksRead == 0)
        invariant manualPlay ==>
          Last(path) == Pos(currentX, currentY) &&
          Play(chessboard.board, chessboard.move, Last(path)) == ManualRun(chessboard.size, first, clicks, clicksRead)
        decreases CountZeros(chessboard.board), |clicks| - clicksRead
      {
        var newMove: Pos;
        newMove, clicksRead, currentX, currentY, path :=
          TourPass(manualPlay, newMoves, clicks, clicksRead, currentX, currentY, path, first);
        newMoves := NextValidMoves(newMove.x, newMove.y);
      }
      TourVisitOrders(chessboard.board, chessboard.size, path);
    }

    /** `simulation(iterations)`: runs that many simulated tours on an empty board,
        recording each final move count and resetting the board after each run. */
    method Simulation(iterations: nat) returns (movesPerRun: seq<int>, ghost paths: seq<seq<Pos>>)
      requires chessboard.Valid() && AllZero(chessboard.board)
      requires iterations > 0 ==> chessboard.size >= 1
      modifies chessboard
      ensures chessboard.Valid() && chessboard.board == Zeros(chessboard.size)
      ensures |movesPerRun| == iterations && |paths| == iterations
      ensures forall i :: 0 <= i < iterations ==>
        1 <= movesPerRun[i] <= Area(chessboard.size) &&
        movesPerRun[i] == |paths[i]| && IsKnightPath(paths[i], chessboard.size) &&
        EndsStuck(paths[i], chessboard.size)
      ensures iterations > 0 ==> chessboard.move == 0
      ensures iterations == 0 ==> chessboard.move == old(chessboard.move)
    {
      movesPerRun := [];
      paths := [];
      AllZeroIsZeros(chessboard.board, chessboard.size);
      for simulation := 0 to iterations
        invariant chessboard.Valid() && chessboard.board == Zeros(chessboard.size)
        invariant |movesPerRun| == simulation && Recorded(movesPerRun, paths, chessboard.size)
        invariant simulation > 0 ==> chessboard.move == 0
        invariant simulation == 0 ==> chessboard.move == old(chessboard.move)
      {
        var _, path := RandomTour(false, true, Pos(0, 0), []);
        TourVisitOrders(chessboard.board, chessboard.size, path);
        NoMovesEndsStuck(chessboard.board, chessboard.size, path);
        RecordedSnoc(movesPerRun, paths, chessboard.size, chessboard.move, path);
        movesPerRun := movesPerRun + [chessboard.move];
        paths := paths + [path];
        chessboard.ResetBoard();
      }
    }
  }
}
