/** What a tour leaves on the board, and the effect of one manual attempt. */
module Tour {
  import opened Grid
  import opened Moves

  function Last(path: seq<Pos>): Pos
    requires path != []
  {
    path[|path| - 1]
  }

  /** Squares i - 1 and i of the path are a knight's move apart. */
  predicate KnightLinked(path: seq<Pos>, i: int)
    requires 0 < i < |path|
  {
    IsKnightVector(Pos(path[i].x - path[i - 1].x, path[i].y - path[i - 1].y))
  }

  /** The board records the knight's path: path[i] is on the board and holds
      visit order i + 1, consecutive squares are a knight's move apart, every
      visited cell is on the path, and the unvisited cells are the rest. */
  predicate IsTour(grid: seq<seq<int>>, size: int, path: seq<Pos>)
    requires WellFormed(grid, size)
  {
    (forall i :: 0 <= i < |path| ==> InBounds(path[i], size) && grid[path[i].y][path[i].x] == i + 1) &&
    (forall i :: 0 < i < |path| ==> KnightLinked(path, i)) &&
    (forall r, c :: 0 <= r < size && 0 <= c < size && grid[r][c] != 0 ==> Pos(c, r) in path) &&
    CountZeros(grid) + |path| == Area(size)
  }

  /** Some cell of the board holds visit order k. */
  predicate HasOrder(grid: seq<seq<int>>, size: int, k: int)
    requires WellFormed(grid, size)
  {
    exists r, c :: 0 <= r < size && 0 <= c < size && grid[r][c] == k
  }

  /** The nonzero cells hold exactly the orders 1..n, each once. */
  predicate VisitOrdersExact(grid: seq<seq<int>>, size: int, n: int)
    requires WellFormed(grid, size)
  {
    (forall r, c :: 0 <= r < size && 0 <= c < size ==> 0 <= grid[r][c] <= n) &&
    (forall k :: 1 <= k <= n ==> HasOrder(grid, size, k)) &&
    (forall r1, c1, r2, c2 ::
       0 <= r1 < size && 0 <= c1 < size && 0 <= r2 < size && 0 <= c2 < size &&
       grid[r1][c1] != 0 && grid[r1][c1] == grid[r2][c2]
       ==> r1 == r2 && c1 == c2)
  }

  /** A knight's path on the board: every square on the board, each a knight's move
      from the one before, none visited twice. */
  predicate IsKnightPath(path: seq<Pos>, size: int)
  {
    (forall i :: 0 <= i < |path| ==> InBounds(path[i], size)) &&
    (forall i :: 0 < i < |path| ==> KnightLinked(path, i)) &&
    (forall i, j :: 0 <= i < j < |path| ==> path[i] != path[j])
  }

  /** The knight at the end of `path` is stuck: every square of the board a knight's move
      from it has already been visited. */
  ghost predicate EndsStuck(path: seq<Pos>, size: int)
    requires path != []
  {
    forall p :: InBounds(p, size) && IsKnightVector(Pos(p.x - Last(path).x, p.y - Last(path).y)) ==> p in path
  }

  /** A recorded tour whose last square generates no move ends stuck. */
  lemma NoMovesEndsStuck(grid: seq<seq<int>>, size: int, path: seq<Pos>)
    requires WellFormed(grid, size) && IsTour(grid, size, path) && path != []
    requires ValidMoves(grid, size, Last(path).x, Last(path).y) == []
    ensures EndsStuck(path, size)
  {
    forall p | InBounds(p, size) && IsKnightVector(Pos(p.x - Last(path).x, p.y - Last(path).y))
      ensures p in path
    {
      if grid[p.y][p.x] == 0 {
        ValidMovesComplete(grid, size, Last(path).x, Last(path).y, p);
      }
      assert Pos(p.x, p.y) == p;
    }
  }

  /** A recorded tour of n squares is n visit orders 1..n, one per cell, n <= Area(size),
      and its path is a knight's path. */
  lemma TourVisitOrders(grid: seq<seq<int>>, size: int, path: seq<Pos>)
    requires WellFormed(grid, size) && IsTour(grid, size, path)
    ensures VisitOrdersExact(grid, size, |path|)
    ensures |path| <= Area(size)
    ensures IsKnightPath(path, size)
  {
    forall r, c | 0 <= r < size && 0 <= c < size
      ensures 0 <= grid[r][c] <= |path|
    {
      if grid[r][c] != 0 {
        var i :| 0 <= i < |path| && path[i] == Pos(c, r);
      }
    }
    forall k | 1 <= k <= |path|
      ensures HasOrder(grid, size, k)
    {
      var p := path[k - 1];
      assert grid[p.y][p.x] == k;
    }
    forall r1, c1, r2, c2 |
      0 <= r1 < size && 0 <= c1 < size && 0 <= r2 < size && 0 <= c2 < size &&
      grid[r1][c1] != 0 && grid[r1][c1] == grid[r2][c2]
      ensures r1 == r2 && c1 == c2
    {
      var i :| 0 <= i < |path| && path[i] == Pos(c1, r1);
      var j :| 0 <= j < |path| && path[j] == Pos(c2, r2);
    }
  }

  /** Marking the start square of an empty board with order 1 records a one-square tour. */
  lemma StartTour(grid: seq<seq<int>>, size: nat, s: Pos)
    requires WellFormed(grid, size) && AllZero(grid) && InBounds(s, size)
    ensures IsTour(Mark(grid, size, s.x + 1, s.y + 1, 1), size, [s])
  {
    EmptyBoardZeros(grid, size);
    MarkFillsOneZero(grid, size, s.x + 1, s.y + 1, 1);
  }

  /** Moving to a generated square and marking it with the next order extends the
      recorded tour by that square, which was unvisited. */
  lemma AdvanceTour(grid: seq<seq<int>>, size: int, path: seq<Pos>, t: Pos, m: int)
    requires WellFormed(grid, size) && IsTour(grid, size, path) && path != []
    requires t in ValidMoves(grid, size, Last(path).x, Last(path).y) && m == |path| + 1
    ensures InBounds(t, size) && grid[t.y][t.x] == 0 && t !in path
    ensures IsKnightVector(Pos(t.x - Last(path).x, t.y - Last(path).y))
    ensures IsTour(Mark(grid, size, t.x + 1, t.y + 1, m), size, path + [t])
    ensures CountZeros(Mark(grid, size, t.x + 1, t.y + 1, m)) < CountZeros(grid)
  {
    ValidMovesSound(grid, size, Last(path).x, Last(path).y);
    MarkFillsOneZero(grid, size, t.x + 1, t.y + 1, |path| + 1);
    AdvanceOrders(grid, size, path, t);
    AdvanceCovers(grid, size, path, t);
  }

  lemma AdvanceOrders(grid: seq<seq<int>>, size: int, path: seq<Pos>, t: Pos)
    requires WellFormed(grid, size) && IsTour(grid, size, path) && path != []
    requires InBounds(t, size) && grid[t.y][t.x] == 0
    requires IsKnightVector(Pos(t.x - Last(path).x, t.y - Last(path).y))
    ensures forall i :: 0 <= i < |path + [t]| ==>
      InBounds((path + [t])[i], size) &&
      Mark(grid, size, t.x + 1, t.y + 1, |path| + 1)[(path + [t])[i].y][(path + [t])[i].x] == i + 1
    ensures forall i :: 0 < i < |path + [t]| ==> KnightLinked(path + [t], i)
  {
    var g := Mark(grid, size, t.x + 1, t.y + 1, |path| + 1);
    var path' := path + [t];
    forall i | 0 <= i < |path'|
      ensures InBounds(path'[i], size) && g[path'[i].y][path'[i].x] == i + 1
    {
      if i < |path| {
        assert path'[i] == path[i];
        assert grid[path[i].y][path[i].x] == i + 1;
      }
    }
    forall i | 0 < i < |path'|
      ensures KnightLinked(path', i)
    {
      if i < |path| {
        assert path'[i] == path[i] && path'[i - 1] == path[i - 1];
        assert KnightLinked(path, i);
      }
    }
  }

  lemma AdvanceCovers(grid: seq<seq<int>>, size: int, path: seq<Pos>, t: Pos)
    requires WellFormed(grid, size) && IsTour(grid, size, path)
    requires InBounds(t, size)
    ensures forall r, c :: 0 <= r < size && 0 <= c < size && Mark(grid, size, t.x + 1, t.y + 1, |path| + 1)[r][c] != 0 ==>
      Pos(c, r) in path + [t]
  {
    var g := Mark(grid, size, t.x + 1, t.y + 1, |path| + 1);
    forall r, c | 0 <= r < size && 0 <= c < size && g[r][c] != 0
      ensures Pos(c, r) in path + [t]
    {
      if (r, c) != (t.y, t.x) {
        assert g[r][c] == grid[r][c];
      }
    }
  }

  /** One pass of the tour loop writes order m on square t: either t is a generated move
      and m the next order, or (an illegal manual attempt) t is the knight's own square
      and m its order. The board then records the tour extended by t in the first case and
      the same tour, on an unchanged board, in the second; in the first the number of
      unvisited squares falls. */
  lemma StepKeepsTour(grid: seq<seq<int>>, size: int, path: seq<Pos>, t: Pos, m: int)
    requires WellFormed(grid, size) && IsTour(grid, size, path) && path != []
    requires (t in ValidMoves(grid, size, Last(path).x, Last(path).y) && m == |path| + 1) ||
             (t == Last(path) && m == |path|)
    ensures InBounds(t, size)
    ensures m == |path| + 1 ==>
      IsTour(Mark(grid, size, t.x + 1, t.y + 1, m), size, path + [t]) &&
      CountZeros(Mark(grid, size, t.x + 1, t.y + 1, m)) < CountZeros(grid)
    ensures m == |path| ==> Mark(grid, size, t.x + 1, t.y + 1, m) == grid
  {
    if m == |path| + 1 {
      AdvanceTour(grid, size, path, t, m);
    } else {
      IllegalAttemptRewritesSameOrder(grid, size, path, m);
    }
  }

  /** The manual-mode rewrite after an illegal attempt (move - 1 written back on the
      knight's square) leaves the board as it was. */
  lemma IllegalAttemptRewritesSameOrder(grid: seq<seq<int>>, size: int, path: seq<Pos>, move: int)
    requires WellFormed(grid, size) && IsTour(grid, size, path) && path != [] && |path| == move
    ensures Mark(grid, size, Last(path).x + 1, Last(path).y + 1, (move + 1) - 1) == grid
  {
    assert grid[Last(path).y][Last(path).x] == move;
    MarkSameValue(grid, size, Last(path));
  }

  /** The state a manual tour threads through its loop. */
  datatype Play = Play(board: seq<seq<int>>, move: int, at: Pos)

  /** One manual attempt at the 0-based target: a legal target advances the knight
      and records the next order there; any other target changes nothing. */
  function ManualStep(size: int, s: Play, target: Pos): (r: Play)
    requires WellFormed(s.board, size)
    ensures WellFormed(r.board, size)
  {
    if IsValidMove(s.board, size, s.at.x, s.at.y, target.x, target.y) then
      ValidMovesSound(s.board, size, s.at.x, s.at.y);
      Play(Mark(s.board, size, target.x + 1, target.y + 1, s.move + 1), s.move + 1, target)
    else
      s
  }

  /** The first n attempts of `targets`, made in order. */
  function ManualRun(size: int, s: Play, targets: seq<Pos>, n: nat): (r: Play)
    requires WellFormed(s.board, size) && n <= |targets|
    ensures WellFormed(r.board, size)
  {
    if n == 0 then s
    else ManualStep(size, ManualRun(size, s, targets, n - 1), targets[n - 1])
  }

  /** From a recorded tour, a legal attempt extends the tour by the target, which held 0,
      and raises move by one; an illegal one leaves board, move and position as they were. */
  lemma ManualStepKeepsTour(size: int, s: Play, path: seq<Pos>, target: Pos)
    requires WellFormed(s.board, size) && IsTour(s.board, size, path)
    requires path != [] && Last(path) == s.at && |path| == s.move
    ensures IsValidMove(s.board, size, s.at.x, s.at.y, target.x, target.y) ==>
      InBounds(target, size) && s.board[target.y][target.x] == 0 && target !in path &&
      ManualStep(size, s, target).move == s.move + 1 && ManualStep(size, s, target).at == target &&
      IsTour(ManualStep(size, s, target).board, size, path + [target])
    ensures !IsValidMove(s.board, size, s.at.x, s.at.y, target.x, target.y) ==>
      ManualStep(size, s, target) == s
  {
    if IsValidMove(s.board, size, s.at.x, s.at.y, target.x, target.y) {
      AdvanceTour(s.board, size, path, target, s.move + 1);
    }
  }

  /** ManualStep written as the tour loop's pass: a legal target is marked with the next
      order, an illegal one rewrites the knight's own square with its current order. */
  lemma ManualStepIs(size: int, s: Play, target: Pos, path: seq<Pos>)
    requires WellFormed(s.board, size) && IsTour(s.board, size, path)
    requires path != [] && Last(path) == s.at && |path| == s.move
    ensures IsValidMove(s.board, size, s.at.x, s.at.y, target.x, target.y) ==>
      InBounds(target, size) &&
      ManualStep(size, s, target) == Play(Mark(s.board, size, target.x + 1, target.y + 1, s.move + 1), s.move + 1, target)
    ensures !IsValidMove(s.board, size, s.at.x, s.at.y, target.x, target.y) ==>
      InBounds(s.at, size) &&
      ManualStep(size, s, target) == Play(Mark(s.board, size, s.at.x + 1, s.at.y + 1, s.move), s.move, s.at)
  {
    if IsValidMove(s.board, size, s.at.x, s.at.y, target.x, target.y) {
      ValidMovesSound(s.board, size, s.at.x, s.at.y);
    } else {
      IllegalAttemptRewritesSameOrder(s.board, size, path, s.move);
    }
  }

  /** Once the knight has no move, further attempts change nothing. */
  lemma {:induction false} ManualRunStuck(size: int, s: Play, targets: seq<Pos>, n: nat)
    requires WellFormed(s.board, size) && ValidMoves(s.board, size, s.at.x, s.at.y) == [] && n <= |targets|
    ensures ManualRun(size, s, targets, n) == s
  {
    if n > 0 {
      ManualRunStuck(size, s, targets, n - 1);
    }
  }
}
