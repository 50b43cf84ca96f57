# Falling-block game engine and tic-tac-toe board, modelled in Dafny

This project models the rules engine of a terminal Tetris game,
`TetrisGame` in `tetris_engine.py`, and the small tic-tac-toe `Board` in
`tic_tac_toe.py`.

The engine owns a `width × height` board. Each cell of the board is blank
(`' '`) or holds the letter of the piece that filled it. The engine also
holds a current piece and a next piece, the counters `score`,
`lines_cleared` and `level`, and the flag `game_over`. Every player action
is modelled as a pure function from a game state to the new state and the
value the Python method returns:

- `Move` and `Rotate` (with its four wall kicks);
- `SoftDrop`, `Tick` and `HardDrop`;
- `Lock`, which stamps the piece, clears full lines, scores and spawns;
- `Spawn`, `GetShadowY`, `New` (the constructor) and `Reset`.

The Python mutates the `Piece` in place; the model returns an updated
record instead.

Everything rests on one predicate, `Playfield.Collides`. A shape collides
at an offset when one of its filled cells is outside the side walls, below
the floor, or on an occupied cell. Rows above the board are only checked
against the walls. `Playfield.CollidesScan` is the source's nested loop
with its early returns, and it is proved to compute exactly that predicate.
The headline invariant (`Invariants.Inv`) says that while the game is not
over, there is a current piece and it does not collide. Every action
preserves it. It is also what keeps `Lock`'s writes inside the board.

Modules:

- `Pieces`: shapes, the seven tetrominoes, and clockwise and
  counter-clockwise rotation.
- `Playfield`: the board, collision, stamping a piece and line clearing.
- `Engine`: the game state and its actions.
- `Invariants`: what the actions preserve.
- `Scenarios`: the three scenarios of `tests/test_engine.py`, as lemmas.
- `TicTacToe`: the tic-tac-toe board.
- `Optional`: the `Option` type.

Modelling choices, and what the code does at its edges:

- A shape cell is a `bool`. The source stores 0/1 integers and tests them
  for truthiness.
- `rotate_clockwise` is `zip(*shape[::-1])`. Like `zip`, `Pieces.RotateCW`
  stops at the shortest row, so ragged shapes rotate as in Python.
- The next piece's kind comes from `random.choice`. Here it is a `Kind`
  parameter of every operation that may generate a piece. `Spawn`,
  `Lock`, `SoftDrop`, `Tick` and `HardDrop` take one. `New` and `Reset`
  take two, because the constructor and `reset` each generate twice.
- `_generate_piece` sets `y = -len(shape)`, so a new piece's bottom row is
  row -1 and the whole piece starts above the board (`Engine.Generate`).
- `spawn_piece` tests the promoted piece at its generated position. Every
  cell there is above the board, so only the side walls count.
  `Engine.SpawnedPieceFits` proves that a generated piece collides exactly
  when it is wider than the board. On any board at least four cells wide,
  spawning never sets `game_over`, however full the board is. The model
  keeps this behaviour.
- `soft_drop` and `hard_drop` move a piece down whenever the next row is
  free, even if the piece overlaps occupied cells where it stands. `_lock_piece`
  writes the piece's letter over whatever is in its cells. The model does
  the same: `Playfield.Stamp` and `Engine.Lock` only need the written
  cells to be on the board (`Playfield.Writable`), not free.

## Model

| member | source | states |
|---|---|---|
| `Pieces.Letter` | tetris_engine.py:17-25 | the letter each kind's entry is keyed by, which becomes the piece's letter |
| `Pieces.Filled` | tetris_engine.py:104-106 | a cell counts only when it exists in the shape and holds a 1; empty cells are skipped by every scan |
| `Pieces.HasFilled` | tetris_engine.py:17-25 | the shape has at least one filled cell, as every tetromino does |
| `Pieces.Rectangular` | tetris_engine.py:37-39 | the shape is non-empty and every row is as long as row 0, which `Piece.width` takes as the width |
| `Pieces.ShapeOk` | tetris_engine.py:17-25 | a shape the engine works with: a rectangle with a filled cell |
| `Pieces.RowCount` | tetris_engine.py:17-25 | the number of filled cells in one row of a shape |
| `Pieces.CellCount` | tetris_engine.py:17-25 | the number of filled cells in a shape, four for every tetromino |
| `Pieces.Width` | tetris_engine.py:37-39 | a shape's width is the length of its first row |
| `Pieces.Tetromino` | tetris_engine.py:17-25 | each of the seven rotation-0 shapes is a rectangle with exactly four filled cells, and its first and last columns each hold a filled cell |
| `Pieces.ZipWidth` | tetris_engine.py:49 | `zip` over the rows yields as many columns as the shortest row has cells (none for no rows) |
| `Pieces.RotateCW` | tetris_engine.py:46-49 | a clockwise quarter turn: an h-row input gives ZipWidth rows of h cells, and output cell (i, j) is input cell (h-1-j, i) |
| `Pieces.RotateRectangle` | tetris_engine.py:46-49 | turning an h-by-w rectangle gives a w-by-h rectangle |
| `Pieces.RotatePreservesShapeOk` | tetris_engine.py:46-49 | a turned rectangle with a filled cell is again a rectangle with a filled cell, so the drop loops still end after a rotation |
| `Pieces.RotateTwiceIsHalfTurn` | tetris_engine.py:46-49 | two clockwise turns give the half turn, where cell (i, j) comes from (h-1-i, w-1-j) |
| `Pieces.RotateFourTimes` | tetris_engine.py:46-49 | four clockwise turns give back the original shape |
| `Pieces.RotateCCW` | tetris_engine.py:142-144 | counter-clockwise rotation as the source writes it, three clockwise turns (its meaning is stated by the two lemmas below) |
| `Pieces.RotateCCWIsInverse` | tetris_engine.py:142-144 | the three-turn counter-clockwise rotation undoes a clockwise turn, in either order |
| `Pieces.RotateCCWIsQuarterTurnLeft` | tetris_engine.py:142-144 | three clockwise turns are one left quarter turn: result cell (i, j) is input cell (j, w-1-i) |
| `Playfield.Wf` | tetris_engine.py:82-83 | a board has `height` rows of `width` cells each |
| `Playfield.EmptyRow` | tetris_engine.py:83 | a row of `width` blank cells, as `[" "] * width` builds it (also used at line 207) |
| `Playfield.Create` | tetris_engine.py:82-83 | the new board has `height` rows of `width` cells, all blank |
| `Playfield.Blocked` | tetris_engine.py:109-113 | a board position is blocked when it is outside the side walls, below the floor, or an occupied cell of a row at or below the top |
| `Playfield.Collides` | tetris_engine.py:102-115 | the collision rule every engine contract is stated with: some filled cell is outside the side walls, below the floor, or on an occupied cell of a row >= 0 |
| `Playfield.CollidesScan` | tetris_engine.py:102-115 | the row-by-row, cell-by-cell scan with early returns is true exactly when some filled cell is outside the walls, below the floor, or on an occupied cell of a row >= 0 |
| `Playfield.CollidesAboveBoard` | tetris_engine.py:109-113 | while all of a shape's rows are above the board, it collides exactly when a filled cell is outside the side walls |
| `Playfield.FreeRowAboveFloor` | tetris_engine.py:111-112 | a shape with a filled cell that fits at row y has y above the floor, which bounds the drop loops |
| `Playfield.Writable` | tetris_engine.py:192-195 | the writes of `_lock_piece` stay in bounds: every filled cell on a row >= 0 lies inside the walls and above the floor |
| `Playfield.FitsIsWritable` | tetris_engine.py:102-115 | a shape that does not collide has every cell it would write inside the board |
| `Playfield.Stamp` | tetris_engine.py:192-195 | each filled cell on a row >= 0 gets the letter, whether it was blank or occupied; every cell the piece does not cover keeps its content; the board keeps its size |
| `Playfield.StampScan` | tetris_engine.py:192-195 | the source's loop over the shape's cells, writing one cell at a time, produces exactly `Stamp`'s board |
| `Playfield.HasGap` | tetris_engine.py:204 | a row is kept when it contains a blank |
| `Playfield.FullCount` | tetris_engine.py:204-205 | the number of rows without a blank, which is what `_clear_lines` reports as cleared |
| `Playfield.Survivors` | tetris_engine.py:204 | the kept rows all contain a blank and come from the board; kept rows plus full rows account for every row |
| `Playfield.PadTop` | tetris_engine.py:206-207 | inserting blank rows at the top until there are `height` rows keeps the given rows at the bottom and blanks above them |
| `Playfield.PadTopRows` | tetris_engine.py:206-207 | padding rows of width w that each contain a blank gives h rows of width w, each with a blank when w > 0 |
| `Playfield.ClearLines` | tetris_engine.py:203-209 | the board keeps its size; the returned count is the number of rows without a blank; the surviving rows sit in order at the bottom under that many blank rows; on a board of positive width no full row remains |
| `Playfield.SurvivorsAppend` | tetris_engine.py:204 | the row filter distributes over concatenation, so surviving rows keep their relative order |
| `Playfield.SurvivorsAllGaps` | tetris_engine.py:204-205 | when every row has a blank, all rows survive and none is counted |
| `Playfield.ClearLinesNoFullRow` | tetris_engine.py:203-209 | a board without a full row is left unchanged, with a count of zero |
| `Playfield.ClearLinesIdempotent` | tetris_engine.py:203-209 | clearing an already cleared board (positive width) changes nothing and counts zero |
| `Engine.BoardOk` | tetris_engine.py:65-69 | the game's board has the game's height in rows and width in columns |
| `Engine.Live` | tetris_engine.py:123 | an action does something only when the game is not over and there is a current piece (the guard of move, rotate, soft_drop, hard_drop and get_shadow_y) |
| `Engine.CollidesAt` | tetris_engine.py:102-115 | `_collides` bound to the game's own board, width and height |
| `Engine.Fits` | tetris_engine.py:97-100 | a live piece does not collide where it stands; `spawn_piece` ends the game when the new piece does |
| `Engine.Generate` | tetris_engine.py:85-90 | the piece has the kind's shape and letter and lies entirely above the board. It is centred: the side margins differ by at most one column, and the left margin minus the right equals the board width's parity minus the piece width's, which fixes x at width // 2 - piece width // 2. It is within the walls when the board is wide enough |
| `Engine.Spawn` | tetris_engine.py:92-100 | the next piece becomes current, a new piece becomes next, board and counters are unchanged, and `game_over` is set exactly when it was set already or the promoted piece collides |
| `Engine.SpawnedPieceFits` | tetris_engine.py:85-100 | a generated piece collides at its spawn position exactly when it is wider than the board |
| `Engine.Move` | tetris_engine.py:120-129 | succeeds exactly when the game is live and the shape fits `dx` columns over; on success only the piece's x changes, by `dx`; otherwise the state is unchanged |
| `Engine.Kicks` | tetris_engine.py:147 | the kick offsets in the source's order: none, one left, one right, one up |
| `Engine.Turn` | tetris_engine.py:141-144 | the rotation `rotate` tries: clockwise, or three clockwise turns for counter-clockwise |
| `Engine.KickFits` | tetris_engine.py:148 | the turned shape does not collide at the piece's position shifted by kick `j` |
| `Engine.FirstKick` | tetris_engine.py:147-152 | kick `j` fits and every earlier kick in the loop collides, so the loop stops at `j` |
| `Engine.SomeKickFits` | tetris_engine.py:147-153 | one of the four kicks lets the turned shape fit, which is when `rotate` returns True |
| `Engine.KickedAt` | tetris_engine.py:147-152 | the game after committing the turned shape at the first fitting kick, with nothing else changed |
| `Engine.FirstFittingKick` | tetris_engine.py:147-153 | the loop over the kicks returns the first kick at which the shape fits, or none when every remaining kick collides |
| `Engine.Kicked` | tetris_engine.py:149-151 | the commit: the piece takes the turned shape and is shifted by the kick's offsets |
| `Engine.KickInto` | tetris_engine.py:147-153 | for a turned shape t: succeeds exactly when t fits at one of the four kicks; it then commits t at the first kick that fits, where it does not collide, changing nothing but the piece; otherwise the state is unchanged |
| `Engine.Rotate` | tetris_engine.py:131-153 | succeeds exactly when the game is live and the turned shape fits at one of the four kicks; it then commits the turned shape at the first kick that fits (order: none, left, right, up), where the piece does not collide and nothing else changes; otherwise the state is unchanged |
| `Engine.LineScore` | tetris_engine.py:199 | the points for `n` rows cleared by one lock, `n` squared times 100 |
| `Engine.LineScoreRewardsCombos` | tetris_engine.py:199 | clearing rows in one lock scores at least as much as splitting them over two locks, strictly more when both parts are non-empty |
| `Engine.Settle` | tetris_engine.py:191-200 | the lock before the spawn, writing, clearing and scoring; it keeps the board well-formed (its effect on board and counters is stated by `LockScoring`) |
| `Engine.Lock` | tetris_engine.py:188-201 | with no current piece nothing changes; otherwise the next piece becomes current, a new next piece is generated, score and line count do not decrease, and `game_over` is set when the promoted piece collides with the new board |
| `Engine.LockScoring` | tetris_engine.py:196-200 | after a lock the board is the written board with its full rows cleared; for `n` full rows the line count grows by `n`, the score by `n*n*100`, and the level becomes lines // 10 + 1 only when `n > 0` |
| `Engine.RestWritable` | tetris_engine.py:155-178 | what the drops need: a live piece whose next row is blocked, and so is locked where it stands, has its cells there inside the board |
| `Engine.FitsIsRestWritable` | tetris_engine.py:155-178 | a piece that fits always meets that need |
| `Engine.SoftDrop` | tetris_engine.py:155-165 | reports true and moves the piece one row down exactly when the game is live and the row below is free, even when the piece overlaps cells where it stands; when live and blocked it locks and reports false; otherwise nothing changes |
| `Engine.Tick` | tetris_engine.py:180-183 | a tick is exactly the state a soft drop leaves |
| `Engine.ShadowFrom` | tetris_engine.py:219-222 | stepping down from row y while the next row is free ends at the last row before the first colliding one: every row between is free and the row after it collides |
| `Engine.GetShadowY` | tetris_engine.py:214-222 | none exactly when there is no live piece; otherwise the resting row, at or below the piece, with a collision just below and every row in between free; when the piece fits, the resting row fits too |
| `Engine.Fall` | tetris_engine.py:173-176 | the hard-drop loop ends with the piece at the resting row `ShadowFrom` computes, having counted exactly the rows it fell |
| `Engine.Landed` | tetris_engine.py:174-175 | the piece moved to its resting row: only y changes and it equals the shadow row. A piece that moved fits there, as does any piece that fitted at the start, and the cells to write are on the board |
| `Engine.HardDrop` | tetris_engine.py:167-178 | with no live piece nothing changes and 0 is returned; otherwise it returns the shadow row minus the start row (never negative) and the state is the lock of the piece at its resting row |
| `Engine.New` | tetris_engine.py:58-77 | an empty board of the given size, score 0, lines 0, level 1, the first generated piece current and the second next; the game starts over only when the first piece is wider than the board |
| `Engine.Reset` | tetris_engine.py:257-267 | the same board size, all cells blank, score 0, lines 0, level 1, fresh current and next pieces; over only when the first piece is wider than the board |
| `Invariants.Inv` | tetris_engine.py:92-100 | the board is well formed, the pieces are proper shapes, and a game that is not over has a current piece that fits |
| `Invariants.Counters` | tetris_engine.py:197-200 | score and line count are non-negative and the level is one more than the tens of cleared lines |
| `Invariants.NewEstablishes` | tetris_engine.py:58-77 | a new game satisfies the state invariant and has consistent counters |
| `Invariants.ResetEstablishes` | tetris_engine.py:257-267 | a reset game satisfies the invariant, has consistent counters, and is live exactly when the first piece fits between the walls |
| `Invariants.SpawnKeepsInv` | tetris_engine.py:92-100 | after a spawn, whenever the game is not over the current piece does not collide |
| `Invariants.MoveKeepsInv` | tetris_engine.py:120-129 | a move keeps the invariant |
| `Invariants.TurnKeepsShapeOk` | tetris_engine.py:142-144 | turning either way keeps a rectangle with a filled cell |
| `Invariants.RotateKeepsInv` | tetris_engine.py:131-153 | a rotation keeps the invariant |
| `Invariants.LockKeepsInv` | tetris_engine.py:188-201 | locking a live piece keeps the invariant |
| `Invariants.SoftDropKeepsInv` | tetris_engine.py:155-165 | a soft drop keeps the invariant |
| `Invariants.TickKeepsInv` | tetris_engine.py:180-183 | a tick keeps the invariant |
| `Invariants.HardDropKeepsInv` | tetris_engine.py:167-178 | a hard drop keeps the invariant |
| `Invariants.LockKeepsCounters` | tetris_engine.py:196-200 | locking keeps score and lines non-negative, keeps level = lines // 10 + 1, and never lowers the score or the line count |
| `Invariants.SoftDropKeepsCounters` | tetris_engine.py:155-165 | a soft drop keeps the counters consistent and never lowers the score |
| `Invariants.HardDropKeepsCounters` | tetris_engine.py:167-178 | a hard drop keeps the counters consistent and never lowers the score |
| `Invariants.GameOverIsFinal` | tetris_engine.py:120-222 | once the game is over, move, rotate and soft drop report false and change nothing, hard drop returns 0, tick changes nothing, and there is no shadow row |
| `Invariants.MoveThenBack` | tetris_engine.py:120-129 | a successful move by `dx` is undone by a move by `-dx`, which also succeeds |
| `Invariants.LandedAfterStep` | tetris_engine.py:161-162 | moving a piece one free row down (whether or not it fitted before) does not change its resting row |
| `Invariants.HardDropAfterSoftDrop` | tetris_engine.py:155-178 | when a soft drop moves the piece, a hard drop from the new state ends in the same state and reports one row fewer |
| `Invariants.HardDropWhenResting` | tetris_engine.py:155-178 | when a soft drop locks, a hard drop from the same state gives the same state and reports 0 rows |
| `Scenarios.LineClearFirstDrop` | tests/test_engine.py:19-20 | the single cell above a free cell moves down one row |
| `Scenarios.LineClearSecondDrop` | tests/test_engine.py:21-22 | the cell on the floor does not move, and the soft drop locks it |
| `Scenarios.LineClearPlaced` | tests/test_engine.py:13-22 | writing the cell completes the bottom row "XXX " |
| `Scenarios.LineClearClears` | tests/test_engine.py:27 | that board has one full row, and after clearing the bottom row is blank |
| `Scenarios.LineClearScores` | tests/test_engine.py:24-27 | the lock brings the line count to 10, the level to 2 and the score to 100, and blanks the bottom row |
| `Scenarios.LineClearScenario` | tests/test_engine.py:10-27 | the whole line-clear test: the first soft drop succeeds, the second fails, and the counters and bottom row end as the test expects |
| `Scenarios.BarLands` | tests/test_engine.py:30-35 | the two-cell bar at row 0 of the empty board comes to rest at row 2 |
| `Scenarios.BarPlaced` | tests/test_engine.py:36-37 | writing the landed bar fills column 1 of rows 2 and 3 and nothing else |
| `Scenarios.BarClearsNothing` | tests/test_engine.py:36-37 | that board has no full row, so clearing leaves it as it is |
| `Scenarios.BarDrops` | tests/test_engine.py:30-34 | from row 0 the bar's hard drop reports 2 rows and locks the bar at row 2 |
| `Scenarios.BarLocks` | tests/test_engine.py:35-38 | locking the bar at row 2 leaves column 1 of rows 2 and 3 filled, clears nothing, and brings the next piece into play |
| `Scenarios.HardDropScenario` | tests/test_engine.py:29-38 | hard drop returns 2, leaves the board with the letter in column 1 of rows 2 and 3 and nothing else, and a current piece is in play |
| `Scenarios.WallKickScenario` | tests/test_engine.py:40-48 | the flat T at the left wall rotates clockwise into the upright shape and stays at a non-negative column; the upright T already fits in place, so no kick fires and the piece stays at (0, 0) |
| `TicTacToe.Wf` | tic_tac_toe.py:13-14 | a board has nine squares |
| `TicTacToe.Empty` | tic_tac_toe.py:12-14 | nine squares, all blank |
| `TicTacToe.Place` | tic_tac_toe.py:16-21 | an index outside 0..8 is refused as out of range; a square that is not blank is refused as taken; otherwise the token is written at the index and no other square changes |
| `TicTacToe.Lines` | tic_tac_toe.py:24-33 | there are eight lines, and each is three distinct squares in increasing, evenly spaced order |
| `TicTacToe.LineWon` | tic_tac_toe.py:35 | a line is won when its three squares hold the same token and it is not the blank |
| `TicTacToe.FirstWon` | tic_tac_toe.py:34-36 | line `j` is won and no earlier line of the scan is, so `winner` returns line `j`'s token |
| `TicTacToe.WinnerFrom` | tic_tac_toe.py:34-37 | the scan from line i returns the token of the first won line at or after i, or none exactly when no remaining line is won |
| `TicTacToe.Winner` | tic_tac_toe.py:23-37 | the token of the first won line in the order rows, columns, diagonals; never the blank; none exactly when no line has three equal non-blank squares |
| `TicTacToe.NoneBlank` | tic_tac_toe.py:40 | true exactly when no element is blank |
| `TicTacToe.IsFull` | tic_tac_toe.py:39-40 | true exactly when no square is blank |
| `TicTacToe.EmptyBoardIsOpen` | tic_tac_toe.py:12-40 | the empty board has no winner and is not full |
| `TicTacToe.FullBoardRefusesEveryMove` | tic_tac_toe.py:16-40 | on a full board every placement is refused |
| `TicTacToe.PlaceKeepsWinner` | tic_tac_toe.py:16-37 | a successful placement never undoes a win: the board still has a winner |
| `TicTacToe.PlaceFillsOneSquare` | tic_tac_toe.py:16-21 | placing a non-blank token fills exactly one more square |
| `TicTacToe.BlankCount` | tic_tac_toe.py:40 | the number of blank squares; the board is full when it is zero |
| `TicTacToe.BlankCountUpdate` | tic_tac_toe.py:21 | overwriting one blank square with a non-blank token lowers the blank count by one |

## Left out

- tetris.py: the whole file is left out. It holds the curses drawing, keyboard polling, the wall-clock accumulator, the `time.sleep` loop and the floating-point fall speed. It is terminal I/O, timing and floating-point work.
- `random.Random(seed)` and `random.choice` are left out. They are library randomness. The chosen kind is a parameter. That `reset` keeps the same generator, so the kind sequence continues, is outside the model. `Reset` takes its two kinds like `New`.
- `TetrisGame.iter_board_with_piece` is left out. It is a display overlay that produces the glyphs `"[]"` and `".."`, not a game rule.
- `prompt_move`, `play` and `Board.__str__` in tic_tac_toe.py are left out. They are console input and output, `SystemExit`, and string formatting.
- `Piece.width` and `Piece.height` appear only as `Pieces.Width` and `|shape|`. The width is the length of row 0, as in the source.
- Playfield.Stamp: requires every cell it writes (filled, on a row >= 0) to be inside the board. Overwriting an occupied cell is modelled. A cell past the right wall or below the floor makes the source raise `IndexError`. A negative column makes Python write at the other end of the row. Neither is modelled. The invariant rules both out.
- Engine.Lock: requires the current piece's cells to be writable, for the same reason as `Stamp`.
- Engine.SoftDrop: requires `RestWritable`: a piece locked where it stands must have its written cells on the board, for the same reason as `Stamp`. A piece that only moves down needs nothing.
- Engine.Tick: requires `RestWritable`, as `SoftDrop` does.
- Engine.HardDrop: requires the current shape to have a filled cell, since without one the source's loop never ends. It also requires `RestWritable`, as `SoftDrop` does.
- Engine.GetShadowY: requires the current shape to have a filled cell, for the same reason as `HardDrop`.
- Engine.Lock: its own contract states only the piece hand-over, the monotone counters and the game-over test. The exact board, lines, score and level after a lock are stated by `Engine.LockScoring`.
- Default arguments are not modelled: `width=10` and `height=20` of the constructor, and `clockwise=True` of `rotate`. Every parameter is given explicitly.
- Board width and height are natural numbers. The source accepts any integer, and negative sizes are not modelled.
- TicTacToe.Place: requires a board of nine squares. A `Board` built by hand with another length is not modelled.
- The `ValueError` messages of `place` are reduced to the two error kinds `OutOfRange` and `Taken`. On a refusal the caller keeps its board, as the exception leaves it unchanged.
