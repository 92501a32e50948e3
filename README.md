# Tic-tac-toe board and game bookkeeping, in Dafny

This project models the core of a small Python tic-tac-toe program: the 3x3
board (`venv/board.py`) and the game object that tracks turns and whether the
game is still on (`venv/game.py`).

- `Wrappers.dfy`: `Result` (a value or the `ValueError` the board raises) and `Option`.
- `Board.dfy`, module `Board`: the board.
  - The grid is a 3x3 integer array indexed `state[x][y]`. Position `p`
    (0..8, numbered row by row as in `map_position`'s docstring diagram)
    lives at `(x, y) = (p % 3, p / 3)`, so the stored array is the transpose
    of that diagram. (`display` prints `state[x]` as one line, so in its
    output `x` is the row.)
  - A negative cell is empty, 0 is O and 1 is X, and every cell starts at -1.
  - The queries (`MapPosition`, `CollectLegalMoves`, `LegalMove`, `Piece`)
    are functions over a value copy of the grid (`Grid = seq<seq<int>>`).
  - `Place` is the pure counterpart of `add_piece`.
  - The class `Board` holds the `array2<int>` and updates it in place.
    `Board.AddPiece` is proved to leave the array equal to `Place`'s grid.
- `Game.dfy`, module `Game`: the class `Game`.
  - It holds the `play` flag, the board, the two players (0 and 1) and
    the index of the player to move.
  - Its methods `Running`, `Move`, `RandomMove` and `SwitchPlayer` are
    specified by the pure functions `NextPlay` and `Switched`.
  - `GameOverIsAbsorbing` and `LaterCallsStayOver` state over whole
    sequences of `running` calls that `play` never goes back to true.

Behaviour of the code as written that the model keeps, and proves:

- `map_position` raises `ValueError` only for -2. Every other position
  outside 0..8 (including -1 and 9) falls into its last branch and maps to
  `(2, 2)`, the cell of position 8. So `add_piece` with a position >= 9 or
  <= -3 acts exactly as position 8 (`PlaceOutOfRangeActsAsLastCell`).
  Position -1 does not: it never places anything, because `legal_move`
  then answers -1 whatever the cell holds (`PlaceMinusOneNeverWrites`). Position -2 raises while a cell is
  empty (`PlaceUnspecified`). Out-of-range positions are therefore not
  rejected by `add_piece`; the model keeps that.
- `legal_move`'s docstring says it returns the position when the position
  is *not* legal. The code returns the position when its cell is empty. The
  model follows the code (`LegalMove`).
- The coordinates from `collect_legal_moves` come in row-major order of the
  stored array (`x` outer). So the positions `random_legal_move` chooses from
  are listed column by column of `map_position`'s docstring diagram
  (0, 3, 6, 1, ...).

## Model

| member | source | states |
|---|---|---|
| `Board.Board.constructor` | venv/board.py:8-10 | a new board's array is 3x3 and every cell holds -1 |
| `Board.FreshBoardAllLegal` | venv/board.py:8-10 | on a fresh board `legal_move(p) == p` for every position 0..8, and the default query answers 9 |
| `Board.MapPosition` | venv/board.py:136-177 | -2 is the only position that raises; 0..8 map to `(p % 3, p / 3)`; every other position maps to `(2, 2)`; all results are on the board |
| `Board.CoordinateToPosition` | venv/board.py:111-132 | one coordinate pair maps to a position in 0..8, namely `3*y + x` for an on-board pair |
| `Board.PositionRoundTrip` | venv/board.py:89-177 | for p in 0..8, mapping p to coordinates and back gives p |
| `Board.CoordinateRoundTrip` | venv/board.py:89-177 | for an on-board pair, mapping it to a position and back gives the pair |
| `Board.MapCoordinates` | venv/board.py:89-134 | the positions list has the length and order of the coordinates list (`[]` gives `[]`); each entry is in 0..8, and for on-board pairs `map_position` maps it back to its pair |
| `Board.EmptyCellsAmong` | venv/board.py:55 | filtering a list of cells keeps exactly the empty ones; row-major input gives row-major output |
| `Board.LegalCoordinates` | venv/board.py:54-55 | the coordinates found are exactly the empty cells, in strictly increasing row-major order of the array |
| `Board.CollectLegalMoves` | venv/board.py:54-62 | the `(-1, -1)` sentinel exactly when no cell is empty; otherwise a non-empty, ordered list of exactly the empty cells |
| `Board.LegalMove` | venv/board.py:64-87 | -1 if no cell is empty; 9 for the default -2 when some cell is empty; the position itself if the cell it maps to is empty; -1 otherwise |
| `Board.LegalMoveDefaultIffFull` | venv/board.py:72-80 | the default query is negative exactly when the board is full, and answers 9 otherwise |
| `Board.LegalMoveOnBoard` | venv/board.py:82-87 | for p in 0..8, `legal_move(p)` is p when cell `(p % 3, p / 3)` is empty and -1 when it is not |
| `Board.Place` | venv/board.py:19-38 | `add_piece` returns 1 exactly when the position is neither -1 nor -2 and its mapped cell is empty; it then writes the piece into that cell and leaves every other cell as it was; it raises exactly for -2 on a board with an empty cell; in every other case it returns 0 and the grid is unchanged |
| `Board.PlaceOnBoard` | venv/board.py:28-38 | for p in 0..8, an empty target receives the piece at `(p % 3, p / 3)` and every other position keeps its value (result 1); an occupied target gives 0 and no change |
| `Board.PlaceOutOfRangeActsAsLastCell` | venv/board.py:169-177 | placing at any position >= 9 or <= -3 has exactly the effect and result of placing at position 8 |
| `Board.PlaceMinusOneNeverWrites` | venv/board.py:28-32 | placing at -1 always returns 0 and changes nothing |
| `Board.PlaceUnspecified` | venv/board.py:28-35 | placing at -2 raises `ValueError` while a cell is empty, and returns 0 on a full board |
| `Board.Board.AddPiece` | venv/board.py:19-38 | the array afterwards, and the result, are those of `Place` on the array before |
| `Board.Board.RandomLegalMove` | venv/board.py:40-52 | returns -1 exactly when no cell is empty; otherwise some position 0..8 whose cell is empty |
| `Board.Piece` | venv/board.py:201-214 | the label is a blank for a negative value, X for a positive one, O for 0 |
| `Board.PieceBlankIffEmpty` | venv/board.py:201-214 | a cell is drawn blank exactly when it is an empty, legal target |
| `Game.Switched` | venv/game.py:55-62 | the next player is always 0 or 1; 0 and 1 swap, and any other value becomes 0 |
| `Game.SwitchedTwice` | venv/game.py:55-62 | switching twice from player 0 or 1 gives back the same player |
| `Game.NextPlay` | venv/game.py:15-23 | after `running(playing)` the game is on exactly when it was on, `playing` is true and some cell is empty |
| `Game.GameOverIsAbsorbing` | venv/game.py:15-23 | after any sequence of `running` calls the game is on only if it was on before, and any call with `playing` false ends it |
| `Game.PlayAfterAppend` | venv/game.py:15-23 | a sequence of `running` calls has the effect of its first part followed by the rest |
| `Game.LaterCallsStayOver` | venv/game.py:15-23 | once `running` has returned false, every later call returns false |
| `Game.Game.CurrentPiece` | venv/game.py:12 | the piece placed for the player to move is `players[current_player]`, which is the player's own number |
| `Game.Game.constructor` | venv/game.py:5-13 | the game starts on, with player 0 to move, no winner, and an empty board |
| `Game.Game.Running` | venv/game.py:15-23 | `play` becomes `NextPlay` of its old value and the board, and is returned; a game that was over stays over |
| `Game.Game.Move` | venv/game.py:35-46 | the current player's piece is placed as `add_piece` places it, its result is returned, and the game is over afterwards exactly when it was over before or the result is 0 |
| `Game.Game.RandomMove` | venv/game.py:25-33 | if the game was off or the board full, it returns 0, the board is unchanged and the game is over; otherwise the current player's piece goes on some formerly empty cell, 1 is returned and the game stays on |
| `Game.Game.SwitchPlayer` | venv/game.py:55-62 | `current_player` becomes `Switched` of its old value, which is the other player |

## Left out

- Console output is left out: `display`, `display_flat` and the messages
  printed by `add_piece`, `random_legal_move` and `running`.
- `winning_state` and `random_board` are not modelled. Both are unfinished
  placeholders with no behaviour (`random_board` only runs `pass`), so the
  call to `random_board` in `Game.__init__` is omitted. The `winner` field is
  only ever set to `None`.
- `static_board` is not modelled. It replaces the 2D array with a flat list
  and so breaks `state[x][y]` indexing; it is a demonstration pre-seed.
- CollectLegalMoves: the NumPy comparison `legal_moves[0] == []` is modelled
  by its intent. A board with no empty cell gives the `(-1, -1)` sentinel.
  The code as written does not do this: `legal_moves[0] == []` is never
  true for a full board (the empty comparison result is falsy, with a
  warning, in older NumPy and an error in recent NumPy), so
  `collect_legal_moves` returns `[]`, never `(-1, -1)`. `legal_move()` then
  answers 9 on a full board, `running()` does not end the game by itself,
  and `add_piece(piece, -2)` raises even on a full board; such a game ends
  only through the `if not positions` check in `random_legal_move`, which
  returns -1 so that `move(-1)` returns 0. None of that is modelled.
- `np.where(state < 0)` is modelled as the empty cells in row-major order
  of the array. NumPy integer types are modelled as unbounded integers.
- Board.RandomLegalMove: `random.choice` is an arbitrary pick among the
  legal positions. No distribution is modelled.
- `main()` (the command-line driver loop) is not modelled. Neither are
  `strategy.py` (child expansion, Monte Carlo sampling, dominance
  comparison), `table.py`, `sample.py` and `player.py`. `strategy.py` calls
  methods that do not exist, and the others only format output or hold data.
  The board size 3 from `constant.py` is inlined as `Dimension`.
- A `ValueError` is modelled as an `Err` result of `AddPiece` and `Move`,
  not as an exception unwinding the caller. `Move` returns it
  without calling `running`, as the exception would.
