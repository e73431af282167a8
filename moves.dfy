/** Knight-move generation over a board value, 0-based, grid indexed grid[y][x]. */
module Moves {
  import opened Grid

  /** The offset table; entry i is paired as dy = Positions[i], dx = Positions[7 - i]. */
  const Positions: seq<int> := [2, 2, -2, -2, 1, -1, 1, -1]

  /** The eight knight vectors (dx, dy), in the order move generation visits them. */
  const KnightVectors: seq<Pos> :=
    [Pos(-1, 2), Pos(1, 2), Pos(-1, -2), Pos(1, -2), Pos(-2, 1), Pos(-2, -1), Pos(2, 1), Pos(2, -1)]

  function Abs(n: int): nat
  {
    if n < 0 then -n else n
  }

  /** A single knight move: one square along one axis and two along the other. */
  predicate IsKnightVector(d: Pos)
  {
    (Abs(d.x) == 1 && Abs(d.y) == 2) || (Abs(d.x) == 2 && Abs(d.y) == 1)
  }

  /** Offset number i of the table, as a (dx, dy) vector. */
  function Offset(i: nat): Pos
    requires i < 8
  {
    Pos(Positions[|Positions| - 1 - i], Positions[i])
  }

  /** The square reached from (x, y) by offset number i. */
  function Dest(x: int, y: int, i: nat): Pos
    requires i < 8
  {
    Pos(x + Offset(i).x, y + Offset(i).y)
  }

  /** Square p is on the board and unvisited. */
  predicate Open(grid: seq<seq<int>>, size: int, p: Pos)
    requires WellFormed(grid, size)
  {
    p.y < size && p.y > -1 && p.x < size && p.x > -1 && grid[p.y][p.x] == 0
  }

  /** Position of a vector in KnightVectors (8 when it is not a knight vector). */
  function Rank(d: Pos): nat
  {
    if d == Pos(-1, 2) then 0 else if d == Pos(1, 2) then 1
    else if d == Pos(-1, -2) then 2 else if d == Pos(1, -2) then 3
    else if d == Pos(-2, 1) then 4 else if d == Pos(-2, -1) then 5
    else if d == Pos(2, 1) then 6 else if d == Pos(2, -1) then 7
    else 8
  }

  /** The open destinations of the first k offsets, in table order. */
  function MovesBefore(grid: seq<seq<int>>, size: int, x: int, y: int, k: nat): (r: seq<Pos>)
    requires WellFormed(grid, size) && k <= 8
    ensures |r| <= k
  {
    if k == 0 then []
    else
      var p := Dest(x, y, k - 1);
      MovesBefore(grid, size, x, y, k - 1) + (if Open(grid, size, p) then [p] else [])
  }

  /** Every square generated from the first k offsets is open, a knight's move from
      (x, y), and comes from an offset < k; the offsets of the squares increase. */
  lemma {:induction false} MovesBeforeSound(grid: seq<seq<int>>, size: int, x: int, y: int, k: nat)
    requires WellFormed(grid, size) && k <= 8
    ensures forall j :: 0 <= j < |MovesBefore(grid, size, x, y, k)| ==>
      var p := MovesBefore(grid, size, x, y, k)[j];
      Open(grid, size, p) && IsKnightVector(Pos(p.x - x, p.y - y)) && Rank(Pos(p.x - x, p.y - y)) < k
    ensures forall i, j :: 0 <= i < j < |MovesBefore(grid, size, x, y, k)| ==>
      Rank(Pos(MovesBefore(grid, size, x, y, k)[i].x - x, MovesBefore(grid, size, x, y, k)[i].y - y)) <
      Rank(Pos(MovesBefore(grid, size, x, y, k)[j].x - x, MovesBefore(grid, size, x, y, k)[j].y - y))
  {
    if k > 0 {
      MovesBeforeSound(grid, size, x, y, k - 1);
      var p := Dest(x, y, k - 1);
      assert Rank(Pos(p.x - x, p.y - y)) == k - 1;
    }
  }

  /** `next_valid_moves(x, y)`: every open square a knight's move away, in table order. */
  function ValidMoves(grid: seq<seq<int>>, size: int, x: int, y: int): (r: seq<Pos>)
    requires WellFormed(grid, size)
    ensures |r| <= |Positions|
  {
    MovesBefore(grid, size, x, y, 8)
  }

  /** `is_valid_move`: membership in the generated list. */
  predicate IsValidMove(grid: seq<seq<int>>, size: int, cx: int, cy: int, x: int, y: int)
    requires WellFormed(grid, size)
  {
    Pos(x, y) in ValidMoves(grid, size, cx, cy)
  }

  /** The mirrored pairing of the table yields exactly the eight knight vectors, in order. */
  lemma OffsetTable()
    ensures forall i :: 0 <= i < 8 ==> Offset(i) == KnightVectors[i]
  {
  }

  /** KnightVectors holds every knight vector and nothing else, each once. */
  lemma KnightVectorsExact(d: Pos)
    ensures d in KnightVectors <==> IsKnightVector(d)
    ensures forall i, j :: 0 <= i < j < 8 ==> KnightVectors[i] != KnightVectors[j]
  {
  }

  /** Rank is the index of a knight vector in the table. */
  lemma RankOfOffset(i: nat)
    requires i < 8
    ensures Rank(Offset(i)) == i
  {
  }

  /** Every generated square is on the board, unvisited, and a knight's move away,
      so never the origin; there are no repeats and at most eight. */
  lemma ValidMovesSound(grid: seq<seq<int>>, size: int, x: int, y: int)
    requires WellFormed(grid, size)
    ensures |ValidMoves(grid, size, x, y)| <= 8
    ensures forall p :: p in ValidMoves(grid, size, x, y) ==>
      InBounds(p, size) && grid[p.y][p.x] == 0 && IsKnightVector(Pos(p.x - x, p.y - y)) && p != Pos(x, y)
    ensures forall i, j :: 0 <= i < j < |ValidMoves(grid, size, x, y)| ==>
      ValidMoves(grid, size, x, y)[i] != ValidMoves(grid, size, x, y)[j]
  {
    MovesBeforeSound(grid, size, x, y, 8);
  }

  lemma {:induction false} MovesBeforeComplete(grid: seq<seq<int>>, size: int, x: int, y: int, k: nat, i: nat)
    requires WellFormed(grid, size) && i < k <= 8
    requires Open(grid, size, Dest(x, y, i))
    ensures Dest(x, y, i) in MovesBefore(grid, size, x, y, k)
  {
    if i < k - 1 {
      MovesBeforeComplete(grid, size, x, y, k - 1, i);
    }
  }

  /** Every open square a knight's move away is generated. */
  lemma ValidMovesComplete(grid: seq<seq<int>>, size: int, x: int, y: int, p: Pos)
    requires WellFormed(grid, size)
    requires InBounds(p, size) && grid[p.y][p.x] == 0 && IsKnightVector(Pos(p.x - x, p.y - y))
    ensures p in ValidMoves(grid, size, x, y)
  {
    var d := Pos(p.x - x, p.y - y);
    KnightVectorsExact(d);
    var i :| 0 <= i < 8 && KnightVectors[i] == d;
    OffsetTable();
    assert Dest(x, y, i) == p;
    MovesBeforeComplete(grid, size, x, y, 8, i);
  }

  /** The generated squares follow the order of the offset table. */
  lemma ValidMovesOrdered(grid: seq<seq<int>>, size: int, x: int, y: int)
    requires WellFormed(grid, size)
    ensures forall i, j :: 0 <= i < j < |ValidMoves(grid, size, x, y)| ==>
      Rank(Pos(ValidMoves(grid, size, x, y)[i].x - x, ValidMoves(grid, size, x, y)[i].y - y)) <
      Rank(Pos(ValidMoves(grid, size, x, y)[j].x - x, ValidMoves(grid, size, x, y)[j].y - y))
  {
    MovesBeforeSound(grid, size, x, y, 8);
  }

  /** A move is valid exactly when the target is open and a knight's move away. */
  lemma IsValidMoveIff(grid: seq<seq<int>>, size: int, cx: int, cy: int, x: int, y: int)
    requires WellFormed(grid, size)
    ensures IsValidMove(grid, size, cx, cy, x, y) <==>
      (InBounds(Pos(x, y), size) && grid[y][x] == 0 && IsKnightVector(Pos(x - cx, y - cy)))
  {
    ValidMovesSound(grid, size, cx, cy);
    if InBounds(Pos(x, y), size) && grid[y][x] == 0 && IsKnightVector(Pos(x - cx, y - cy)) {
      ValidMovesComplete(grid, size, cx, cy, Pos(x, y));
    }
  }

  /** On an empty 5x5 board the corner (0, 0) has the two moves (1, 2) and (2, 1). */
  lemma CornerOfFiveByFive()
    ensures ValidMoves(Zeros(5), 5, 0, 0) == [Pos(1, 2), Pos(2, 1)]
  {
  }

  lemma {:induction false} MovesBeforeEmpty(grid: seq<seq<int>>, size: int, x: int, y: int, k: nat)
    requires WellFormed(grid, size) && k <= 8
    requires forall i :: 0 <= i < k ==> !Open(grid, size, Dest(x, y, i))
    ensures MovesBefore(grid, size, x, y, k) == []
  {
    if k > 0 {
      MovesBeforeEmpty(grid, size, x, y, k - 1);
    }
  }

  /** A square has no moves exactly when none of its eight knight destinations is open. */
  lemma ValidMovesEmptyIff(grid: seq<seq<int>>, size: int, x: int, y: int)
    requires WellFormed(grid, size)
    ensures ValidMoves(grid, size, x, y) == [] <==> forall i :: 0 <= i < 8 ==> !Open(grid, size, Dest(x, y, i))
  {
    if forall i :: 0 <= i < 8 ==> !Open(grid, size, Dest(x, y, i)) {
      MovesBeforeEmpty(grid, size, x, y, 8);
    } else {
      var i :| 0 <= i < 8 && Open(grid, size, Dest(x, y, i));
      MovesBeforeComplete(grid, size, x, y, 8, i);
    }
  }

  /** On a 1x1 board no square has a move. */
  lemma OneByOneHasNoMoves(grid: seq<seq<int>>, x: int, y: int)
    requires WellFormed(grid, 1) && InBounds(Pos(x, y), 1)
    ensures ValidMoves(grid, 1, x, y) == []
  {
    ValidMovesEmptyIff(grid, 1, x, y);
  }
}
