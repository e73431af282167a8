# Knight's tour core, modelled in Dafny

This project models the knight's-tour core of the *Weird chess game*. The core has three parts:

- **The board** (`Chessboard`): a square grid of visit orders, where 0 means "not visited yet", plus a move counter.
- **The tour engine** (`KnightTour`):
  - move generation (`next_valid_moves`, `is_valid_move`);
  - the tour driver `random_tour` in its manual, random and simulation modes;
  - the `simulation` loop that records the final move count of each simulated tour.
- **The terminal front end** (`TerminalInterface`): `game`, `manual` and `random`, driven by typed 1-based coordinates.

## Modules

| module | file | contents |
|---|---|---|
| `Grid` | `grid.dfy` | Board values: the new board, `mark_square`'s write (and, as a separate model, its Python wrap-around for index -1), the reset board, the count of unvisited cells, and `Area(n)`, the number of squares (proved equal to n·n). |
| `Moves` | `moves.dfy` | The offset table, move generation as a function of the board value, and its soundness, completeness, order and uniqueness. |
| `Tour` | `tour.dfy` | `IsTour`, the invariant a tour keeps. It ties the board to a ghost path of visited squares. Also one manual attempt (`ManualStep`) and a run of attempts (`ManualRun`). |
| `Board` | `chessboard.dfy` | Class `Chessboard`, whose methods update `board` and `move` in place. |
| `Knight` | `knight_tour.dfy` | Class `KnightTour`: the generator loop, the tour driver and the simulation loop. |
| `Terminal` | `terminal.dfy` | Class `TerminalInterface`, plus the finding below. |

## Design

- **Board layout.** The grid is a `seq<seq<int>>` field indexed `board[y][x]`, as in the source. `mark_square`, the typed squares and the start passed to `manual`/`random` are 1-based; move generation, the GUI clicks and the drivers' current square are 0-based.
- **What a tour guarantees.** Every driver keeps `IsTour(board, size, path)` for a ghost `path` of visited squares:
  - square `path[i]` is on the board and holds order `i + 1`;
  - consecutive squares are a knight's move apart;
  - every nonzero cell is on the path;
  - the unvisited cells number `Area(size) - |path|`.

  From this, `TourVisitOrders` derives the promised end state: the nonzero cells hold exactly 1..move, each once, and `move <= size * size`.
- **Termination.** Every pass that moves the knight fills one zero cell, so the random loops decrease the count of zero cells.
- **Random choices.** `random.choice` and `random.randint` are arbitrary choices (`:|`), so every proof covers every choice.
- **Input.** Clicks and typed coordinates are a finite sequence parameter. The interactive loops also end when that sequence runs out.
- **Manual mode.** The manual drivers are tied to `ManualRun`: a fold of `ManualStep` over the attempts read so far.
- **Move counter in `random_tour`.** The code adds one to `move`, and subtracts it again after an illegal manual attempt. The model assigns the net value once, just before `mark_square` (`MarkMove`); nothing reads `move` in between. After an illegal attempt, the knight's own square is rewritten with its own order. `IllegalAttemptRewritesSameOrder` proves that this leaves the board unchanged.
- **Move order.** No caller depends on the order of the generated moves: `is_valid_move` only tests membership, and `random.choice` may pick any entry. The code still returns them in offset-table order (`knight_tour.py:63-67`), and the model follows the code (`ValidMovesOrdered`).
- **Out-of-range coordinates.** The code (`chessboard.py:37`) never checks a square against the board:
  - Python raises `IndexError` for an index of `size` or more;
  - it wraps an index of -1 to the last row or column.

  The model therefore requires 1-based coordinates in `1..size` from every caller of `MarkSquare`. The terminal start, which nothing checks, is treated under "## Findings".

## Model

| member | source | states |
|---|---|---|
| Grid.Zeros | chessboard.py:22-25 | The new board has `size` rows of `size` cells, all 0. |
| Grid.EmptyBoardZeros | chessboard.py:22-25 | A `size`×`size` board of zeros has `Area(size)` unvisited cells. |
| Grid.AreaIsSquare | chessboard.py:22-25 | `Area(size)`, the number of squares, equals `size * size`. |
| Grid.AllZeroIsZeros | chessboard.py:22-25 | Any all-zero board of the right dimensions is the new board. |
| Grid.Mark | chessboard.py:37 | Writing order m at the 1-based (x, y) sets cell `[y-1][x-1]` to m, leaves every other cell as it was, and keeps the dimensions. |
| Grid.MarkFillsOneZero | chessboard.py:37 | Writing a nonzero order over an unvisited cell leaves exactly one unvisited cell fewer. |
| Grid.MarkSameValue | chessboard.py:37 | Rewriting a cell with the value it holds leaves the board unchanged. |
| Grid.ZeroedLike | chessboard.py:44-46 | The reset grid has the same rows, each of its old length, and every cell is 0. |
| Grid.ZeroedLikeIdempotent | chessboard.py:39-47 | Resetting twice gives the same grid as resetting once. |
| Grid.ZeroedLikeKeepsSize | chessboard.py:39-47 | Resetting a `size`×`size` board gives back the new board of that size. |
| Board.Chessboard.constructor | chessboard.py:11-25 | The row-by-row build loops produce `size` rows of `size` zeros, with `move == 0`. |
| Board.Chessboard.MarkSquare | chessboard.py:27-37 | The board becomes `Mark` of the old board at the 1-based square; `move` is unchanged. |
| Board.Chessboard.ResetBoard | chessboard.py:39-47 | The in-place loops zero every cell of every row; rows keep their lengths; `move` becomes 0; a valid board becomes the new board. |
| Moves.OffsetTable | knight_tour.py:63-67 | Pairing entry i with entry 7 - i of the offset table yields, in order, the vectors (-1,2),(1,2),(-1,-2),(1,-2),(-2,1),(-2,-1),(2,1),(2,-1). |
| Moves.KnightVectorsExact | knight_tour.py:63 | The table holds every knight vector and nothing else, with no repeats. |
| Moves.RankOfOffset | knight_tour.py:63-67 | Rank(v) is the position in the table of the vector v. |
| Moves.MovesBefore | knight_tour.py:61-69 | The `next_valid_moves` loop as a function: the open destinations of the first k offsets, in table order, at most k of them. |
| Moves.ValidMoves | knight_tour.py:61-69 | `next_valid_moves(x, y)` on a board value: the result of all eight offsets, at most eight squares; its properties are the lemmas below. |
| Moves.IsValidMove | knight_tour.py:47 | `is_valid_move`: the target is a member of the generated list. `Moves.IsValidMoveIff` characterises it. |
| Moves.MovesBeforeSound | knight_tour.py:64-67 | After k offsets, every square collected is open, a knight's move away, and comes from an offset before k, and the offsets of the squares increase. |
| Moves.MovesBeforeComplete | knight_tour.py:64-67 | After k offsets, the open destination of every offset before k has been collected. |
| Moves.MovesBeforeEmpty | knight_tour.py:64-67 | If none of the first k destinations is open, nothing is collected. |
| Moves.ValidMovesSound | knight_tour.py:49-69 | Every generated square is on the board, unvisited, a knight's move away and not the origin; there are at most 8 squares, with no repeats. |
| Moves.ValidMovesComplete | knight_tour.py:49-69 | Every on-board, unvisited square a knight's move away is generated. |
| Moves.ValidMovesOrdered | knight_tour.py:64-67 | The generated squares follow the order of the offset table. |
| Moves.IsValidMoveIff | knight_tour.py:34-47 | A target is valid if and only if it is on the board, unvisited and a knight's move from the current square. |
| Moves.ValidMovesEmptyIff | knight_tour.py:49-69 | No moves are generated if and only if none of the eight destinations is open. |
| Moves.CornerOfFiveByFive | knight_tour.py:49-69 | On an empty 5×5 board the moves from (0, 0) are exactly [(1, 2), (2, 1)], in that order. |
| Moves.OneByOneHasNoMoves | knight_tour.py:49-69 | On a 1×1 board no square has a move. |
| Tour.NoMovesEndsStuck | knight_tour.py:101 | A recorded tour whose last square generates no move ends stuck: every on-board square a knight's move from it is on the path. |
| Tour.TourVisitOrders | knight_tour.py:71-135 | A recorded tour of n squares is the orders 1..n, one cell each, with every cell between 0 and n; n ≤ `Area(size)`; its path is on the board, knight-linked and repeat-free. |
| Tour.StartTour | knight_tour.py:91-92 | Marking the start of an empty board with order 1 records the one-square tour. |
| Tour.AdvanceTour | knight_tour.py:124 | Marking a generated square with the next order: the square was on the board, unvisited, off the path and a knight's move away; the tour grows by it; one unvisited cell fewer is left. |
| Tour.AdvanceOrders | knight_tour.py:124 | After the mark, every square of the extended path holds its order, and consecutive squares are knight-linked. |
| Tour.AdvanceCovers | knight_tour.py:124 | After the mark, every visited cell is on the extended path. |
| Tour.StepKeepsTour | knight_tour.py:102-124 | A pass that marks a generated square with move + 1 extends the tour and fills a zero cell. A pass that rewrites the knight's square with its own order leaves the board unchanged. |
| Tour.IllegalAttemptRewritesSameOrder | knight_tour.py:120-124 | After an illegal attempt, `move -= 1` and the mark of the knight's square leave the board as it was. |
| Tour.ManualStep | terminal_interface.py:65-73 | One manual attempt (also `knight_tour.py:108-124`). A valid target becomes the knight's square, with order move + 1 written there; any other target leaves the state as it was. The board keeps its dimensions. |
| Tour.ManualRun | terminal_interface.py:61-73 | The first n attempts of the manual loop, made in order, each by `ManualStep`. The board keeps its dimensions. |
| Tour.ManualStepKeepsTour | terminal_interface.py:65-73 | A legal attempt extends the tour by an unvisited target and raises `move` by one. An illegal attempt changes board, move and position not at all. |
| Tour.ManualStepIs | knight_tour.py:108-124 | One manual attempt, as the GUI pass performs it: a legal click is marked with the next order; an illegal one writes the current order back on the knight's square. |
| Tour.ManualRunStuck | knight_tour.py:101 | Once the knight has no move, further attempts change nothing. |
| Knight.RecordedSnoc | knight_tour.py:147-150 | Appending a tour's count and path keeps `Recorded`: every count is in 1..`Area(size)` and equals the length of its knight's path, and that path ends stuck. |
| Knight.KnightTour.NextValidMoves | knight_tour.py:49-69 | The generating loop over the offset table returns exactly `ValidMoves` on the current board, whose properties are the `Moves` lemmas. |
| Knight.KnightTour.IsValidMove | knight_tour.py:34-47 | The result is membership of the target in the generated moves (see `Moves.IsValidMoveIff`). |
| Knight.KnightTour.ChooseNextMove | knight_tour.py:102-122 | Random mode picks a generated move, with the next order. Manual mode consumes one click: the click itself if it is valid, otherwise the knight's square with the order lowered again, and marking the result is `ManualRun` over the clicks read. |
| Knight.KnightTour.MarkMove | knight_tour.py:124 | `move` takes the chosen order, and the board becomes `Mark` of the old board at `new_move`. |
| Knight.KnightTour.TourPass | knight_tour.py:102-124 | One pass keeps the tour. Random mode grows it by the generated move and fills a zero cell. Manual mode either does the same or leaves the board unchanged, and the state is `ManualRun` of the clicks read. |
| Knight.KnightTour.RandomTour | knight_tour.py:71-135 | From any on-board start, in every mode: the board records a tour from the start, the nonzero cells are exactly 1..move, and 1 ≤ move ≤ `Area(size)`. The tour ends only when no move is left, or, in manual play, when the clicks run out. Manual play ends in `ManualRun` of all clicks read. |
| Knight.KnightTour.Simulation | knight_tour.py:137-150 | Returns `iterations` counts, one per run. Each count is in 1..`Area(size)` and equals the length of a knight's path; each run went on until every on-board knight move from the last square led to a visited square. The board is left reset. |
| Terminal.ZeroBasedTargets | terminal_interface.py:62-70 | The 0-based square tried for a typed entry is on the board exactly when both typed coordinates are in 1..size, and marking it then writes the very square that was typed. |
| Grid.PyIndex | chessboard.py:37 | Python list indexing: an index in [-n, n) selects the position in [0, n) congruent to it modulo n. |
| Grid.MarkAsWritten | chessboard.py:37 | `mark_square` with Python's wrap-around; it equals `Mark` whenever both coordinates are at least 1. |
| Terminal.StartAtColumnZeroAsWritten | terminal_interface.py:36-40 | As written, typing the start (0, 1) on the 8×8 board marks square (7, 0). The knight is then placed off the board, at (-1, 0), and its first move (0, 2) does not follow that mark. |
| Terminal.TerminalInterface.Arrive | terminal_interface.py:68-70 | `move` rises by one and the 0-based square is marked with it. |
| Terminal.TerminalInterface.ManualAttempt | terminal_interface.py:65-73 | The new state is `ManualStep` of the old one at the typed target. The tour is kept, and its path is unchanged or grows by the target. |
| Terminal.TerminalInterface.Manual | terminal_interface.py:50-73 | Typed squares are shifted to 0-based and tried in order. The loop ends with no move left or the input exhausted; the state is then `ManualRun` of the squares read. The tour is kept, and the path it started from is a prefix of the final path. |
| Terminal.TerminalInterface.RandomStep | terminal_interface.py:87-92 | The chosen square is on the board, off the path and a knight's move away. The tour grows by it, and one unvisited cell fewer is left. |
| Terminal.TerminalInterface.Random | terminal_interface.py:75-93 | Ends with no move left. The nonzero cells are exactly 1..move, with move ≤ `Area(size)`. The tour is kept, and the path it started from is a prefix of the final path. |
| Terminal.TerminalInterface.Game | terminal_interface.py:26-48 | A tour starts if and only if the mode is 1 or 2 and the start is on the board; otherwise nothing changes. When a tour starts, the start holds order 1 and the chosen driver runs from it. |

## Left out

- Rendering, pygame, sound, delays, the histogram plot (`knight_tour.py:152-157`), the menu and `main.py` are display and I/O. They are not part of this model.
- `click_to_coordinates` and `input()`/`int()` parsing are not modelled. Clicks and typed squares are parameters (`start`, `clicks`, `inputs`). Text that is not a number is not modelled.
- When the mode is neither 1 nor 2, `game` asks again by calling itself. Here `Game` returns `started == false`, and the caller asks again.
- Probabilities are not modelled: every random choice is arbitrary, and the proofs cover all choices.
- `valid_move` is not modelled; in `random_tour` it only selects a sound or a display update.
- `print_board` is output and is not modelled.
- Knight.KnightTour.RandomTour: its interactive loop also stops when the finite sequence of clicks runs out, which the source (waiting forever for a click) never does. The board state is still the run of the clicks read.
- Terminal.TerminalInterface.Manual: likewise stops when the typed squares run out.
- Knight.KnightTour.MarkMove: the `move += 1` (`knight_tour.py:102`) and `move -= 1` (`knight_tour.py:121`) pair is collapsed into one assignment of the net value.
- Knight.KnightTour.RandomTour, Knight.KnightTour.Simulation and Terminal.TerminalInterface.Game require an all-zero board at the start. The GUI path gets this from its callers: a new board, or `reset_board` after every tour. No caller of `game` appears in the source; `main.py` builds only the menu.
- Knight.KnightTour.RandomTour: the start click is assumed to be on the board. `click_to_coordinates` can return a square off the board, e.g. row `size` for a click at the top edge (`user_interaction.py:117`). `mark_square` then raises `IndexError`, or wraps for index -1; neither is modelled.
- Board.Chessboard.MarkSquare requires 1 ≤ x, y ≤ size. Python's behaviour outside that range is modelled separately by `Grid.MarkAsWritten`, down to 1 - size.
- Integer widths do not matter here: Python integers are unbounded, and so are Dafny's.

## Findings

| source | as written | input that shows it | evidently intended | confidence | as-written member | corrected member |
|---|---|---|---|---|---|---|
| terminal_interface.py:36-40 | The typed start is never range-checked. `mark_square(0, y)` writes `board[y-1][-1]`, the last column, while `manual`/`random` move the knight from column -1. | Mode 2 or 1, start (0, 1), 8×8 board: order 1 lands on (7, 0); the first generated moves are (0, 2) and (1, 1), and (0, 2) is not a knight's move from (7, 0). | Reject a start outside 1..size, as the mode is rejected. | high, not executed | Terminal.StartAtColumnZeroAsWritten | Terminal.TerminalInterface.Game |
