# Tic-tac-toe on a square board: a Dafny model

This project models the engine of a console tic-tac-toe program (`main.py`).
Two players, 'X' and 'O', take turns marking cells of a
square board of size 3 to 7. A player wins with `min(size, 5)` of their marks
in a row, a column or a diagonal. A full board is a draw. A session is made of
games, and each game is a series of rounds. A new game asks for the size and
the first player and resets the round counter and the score. Each further
round of a game swaps the player who starts.

The project has four modules, one per layer of the program:

- `Board` (`board.dfy`) covers the field as a list of rows. It has
  `init_field`, `change_player` and `is_draw`. It also has the arithmetic of
  `player_move`, which turns a typed number into a cell, and the numbered view
  that `draw_field` prints. The validation of one typed token has three
  checks: digits, the range 1 to size², and a free cell.
- `WinDetection` (`win.dfy`) models `is_win` exactly as written. There are
  six sweeps of lines (rows, columns, two halves of the '/' diagonals and two
  halves of the '\' diagonals), and each sweep makes a substring test for the
  winning run. This module proves that `is_win` holds exactly when some cell
  begins `L` marks of the player in one of four directions. It also proves
  that the sweeps stay on the board and cover every diagonal.
- `Round` (`round.dfy`) models one round (`player_move` and `game`).
  - `PlayRound` is a reference definition of a round as a function of the
    typed tokens. Lemmas state that its moves are legal, that the players
    alternate and that the round stops after the first winning or filling
    move. They also give the meaning of its outcome.
  - `PlayerMove`, `Game` and `CheckDraw` are the imperative versions, which
    work on an `array2<char>` field. They are proved equal to the reference
    definitions.
- `Series` (`series.dfy`) models the `app` loop. `App` plays the scripted
  rounds and returns one record per round. Its contract ties every record to
  the one before: the round number, the settings, the starting player and the
  score.

Input is modelled as data:
- The move tokens of a round are a sequence of strings. A rejected token is
  consumed and changes nothing.
- Running out of tokens, which in the program is `input()` raising at end of
  input, ends the round with the outcome `InputExhausted`. It also ends the
  session.
- The answers of a session's menus are a sequence of `RoundScript`s. Each one
  holds the settings, the tokens and the two yes/no answers.

A winning move that also fills the board is reported as a draw, and nobody's
score changes, because the verdict at main.py:181 tests for a full board
before crediting a win. `Round.DrawBeforeWin`, `Round.WinningLastMoveIsDraw`
and `Round.ExampleRoundIsDraw` state this behaviour, the last for a concrete
round of nine typed moves.

## Model

| member | source | states |
|---|---|---|
| Board.InitField | main.py:18-26 | the new field has `size` rows of `size` cells, and every cell holds the empty mark |
| Board.Place | main.py:88 | writing the mark changes exactly the chosen cell; every other cell and the shape of the field stay as they were |
| Board.ChangePlayer | main.py:151-157 | the next player is a mark ('X' or 'O') that differs from the given one |
| Board.ChangePlayerInvolution | main.py:157 | on 'X' and 'O', changing the player twice gives the player back |
| Board.IsDigits | main.py:70 | `move.isdigit()`: the token is non-empty and every character is one of '0' to '9' |
| Board.DecimalValue | main.py:73 | `int(move)` of a digit string: its base-10 value, leading zeros allowed |
| Board.MoveToCoords | main.py:74-79 | `coord_y` is `move // size`, and `coord_x` is `move % size - 1`; when the remainder is 0 (and the move is positive) they are one row up and the last column |
| Board.DisplayIndex | main.py:49 | the number the numbered view prints for cell (i, j): `i * size + (j + 1)` |
| Board.IsDraw | main.py:136-148 | `is_draw`: no cell of the field holds the empty mark |
| Board.DecimalValueOfShowNumber | main.py:73 | reading the decimal text of a number with `int` gives the number back |
| Board.MoveToCoordsFormula | main.py:74-79 | for a positive move number, the computed cell is ((move-1) div size, (move-1) mod size); the remainder-0 branch wraps to the last column of the previous row |
| Board.MoveToCoordsInRange | main.py:74-80 | for a move in [1, size²], the computed cell is ((move-1) div size, (move-1) mod size) and lies on the board |
| Board.DisplayIndexInverse | main.py:49 | the number shown for cell (i, j) is in [1, size²], and the move translation maps it back to (i, j) |
| Board.CoordsInverse | main.py:74-80 | every move number in range is the number shown on the cell it translates to |
| Board.ValidateMove | main.py:70-86 | an accepted token names a cell on the board that holds neither 'X' nor 'O' |
| Board.ValidateMoveMeaning | main.py:70-86 | a token that is not all digits is rejected as not a number; a number outside [1, size²] is rejected as out of range (both directions); an accepted token names cell ((move-1) div size, (move-1) mod size); an occupied-cell rejection names a cell that holds a mark |
| Board.DisplayedMoveAccepted | main.py:44-50 | typing the number the board shows on a free cell is accepted and names that very cell |
| Round.FirstAccepted | main.py:68-86 | the token `player_move` keeps lies at or after the start position, and if it exists it is accepted |
| Round.FirstAcceptedSkipsRejected | main.py:68-86 | every token read before the kept one is rejected |
| Round.PlayerMove | main.py:54-88 | the method reads tokens until one is accepted and writes the player's mark into exactly the cell that token names; the next position is just past it; with no accepted token the field is unchanged and all input is consumed |
| WinDetection.WinLength | main.py:99-103 | the length of the winning string: the board size, capped at 5 |
| WinDetection.Contains | main.py:107 | Python's `win_line in line` on strings: the pattern occurs at some position of the line |
| WinDetection.SweepCell | main.py:105-131 | the cell the j-th character of line i reads, for each of the six sweeps, with the index expressions of the comprehensions |
| WinDetection.IsWin | main.py:91-133 | `is_win`: the string of `WinLength` copies of the player's mark occurs in some line of one of the six sweeps, in their order: rows, columns, two '/' halves, two '\' halves |
| WinDetection.Repeat | main.py:100-103 | `player * n` is n copies of the player's mark |
| WinDetection.Line | main.py:105-131 | each line a sweep joins has as many characters as that loop's `range` gives it |
| WinDetection.SweepCellInBounds | main.py:105-131 | every index expression of the six sweeps names a cell on the board |
| WinDetection.SweepAlong | main.py:115-131 | consecutive characters of a sweep's line are neighbouring cells in one direction: right for rows, down for columns, down-right for '\' lines and down-left (read backwards) for '/' lines |
| WinDetection.SweepLineInvariant | main.py:115-131 | each '/' line has one constant row + column, each '\' line one constant column - row, and each index of a sweep gives a different one |
| WinDetection.AntiDiagonalCoverage | main.py:115-122 | the two '/' sweeps together read every cell, and so every anti-diagonal row + col in [0, 2·size-2] |
| WinDetection.DiagonalCoverage | main.py:124-131 | the two '\' sweeps together read every cell, and so every diagonal col - row in [-(size-1), size-1] |
| WinDetection.RunFromSweepMatch | main.py:105-131 | a match of the winning run in a line of some sweep is `L` cells of the player in a row in that sweep's direction |
| WinDetection.SweepMatchFromRun | main.py:105-131 | `L` cells of the player in a row in a direction lie inside one line of a sweep, where they match the winning run |
| WinDetection.IsWinIffRun | main.py:91-133 | `is_win` holds exactly when some cell begins `L = min(size, 5)` marks of the player to the right, down, down-right or down-left, all on the board (both directions) |
| WinDetection.SmallBoardRowWin | main.py:100-108 | on a board of size at most 5, a row or a column contains the winning run exactly when every one of its cells holds the player's mark |
| WinDetection.ThreeByThreeWin | main.py:99-133 | on a 3 by 3 board `is_win` holds exactly when one of the three rows, three columns or two diagonals holds only the player's mark (both directions) |
| WinDetection.NoMarkNoWin | main.py:91-133 | a board without the player's mark is not a win for that player |
| Round.CheckDraw | main.py:136-148 | the row-by-row scan with an early exit answers yes exactly when no cell is empty |
| Round.Finished | main.py:177 | the loop guard of `game`: the round stops once the player who just moved has a win or the board is full |
| Round.Verdict | main.py:181-190 | the verdict after the loop: a win for the last mover unless the board is full, which is a draw |
| Round.PlayRound | main.py:172-190 | a round ends on a well-formed board of the same size, reads no token beyond the input and plays only cells on the board |
| Round.RoundIsReplay | main.py:174-180 | the final board is what the round's moves give when the players alternate, starting with the player after the pre-flipped one |
| Round.RoundIsLegal | main.py:177-179 | every move of the round lands on a cell that held no mark before it |
| Round.RoundLastMover | main.py:174-179 | the player who moved last made the round's last move, and that player is the first mover when the move count is odd and the other player when it is even; when no move is made, the player is left as it was |
| Round.RoundContinuedUntilLast | main.py:177-179 | no move but the last left a win for its mover or a full board: the loop stops right after the first move that does |
| Round.RoundOutcomeMeaning | main.py:177-190 | a draw exactly when the final board is full; a win only for the last mover, who has a winning line on a board that is not full; running out of input only while the round is undecided |
| Round.DrawBeforeWin | main.py:181-190 | a round that ends with a full board is a draw, even when the last move completed a winning line |
| Round.WinningLastMoveIsDraw | main.py:181-190 | for the concrete 3 by 3 board whose last 'X' fills the board and completes the '\' diagonal, `is_win` and `is_draw` both hold and the verdict is a draw |
| Round.FreshRoundStartsWithPlayer | main.py:172-179 | on a fresh board of size at least 1 the round is not over before the first move, its moves are legal, and played alternately starting with the given player they rebuild the final board |
| Round.FreshRoundLastMover | main.py:174-179 | on a fresh board the last mover is the starting player after an odd number of moves and the other player after an even number (the pre-flipped player when no move was made) |
| Round.AdvanceOnThree | main.py:177-179 | on a 3 by 3 board that is neither won by the last mover nor full, typing the number shown on a free cell plays that cell for the other player, and the round goes on from the new board |
| Round.ExampleRoundIsDraw | main.py:172-190 | the round on a fresh 3 by 3 board with X first and the tokens 1, 2, 3, 4, 5, 6, 8, 7, 9 ends on the board where X's last move fills the board and completes the '\' diagonal; X moved last and has a win, and the outcome is a draw |
| Round.MarksPersist | main.py:83-88 | once a cell holds a mark, every later move leaves it unchanged |
| Round.Game | main.py:160-190 | the round's outcome is that of the reference round on a fresh field; a win by 'X' adds 1 to the first counter, a win by any other player adds 1 to the second, and a draw (or running out of input) changes neither |
| Series.App | main.py:272-298 | every record follows from the previous one. A new game is round 1 with the chosen size and player and a fresh score. Any other round takes the next number, the same size and the opposite starting player, and adds its result to the score. Each outcome is that of `game`. The session went on after every round but the last, and it stopped early only on a "no" or when the input ran out |
| Series.Credited | main.py:183-186 | the score after a round: a win by 'X' adds 1 to the first counter, any other winner adds 1 to the second, and a draw changes neither |
| Series.AppendRecord | main.py:293-296 | appending the next round's record keeps every earlier record's link with the one before it |
| Series.RoundInGame | main.py:283-296 | round i belongs to the game begun `round - 1` rounds earlier. No new game was asked for in between, and the size is the one chosen for that game. The chosen player starts the odd-numbered rounds and the other player the even ones. The score counts exactly the wins of that game's rounds so far |
| Series.StartersAlternate | main.py:290-296 | a corollary of `App`'s links: within a game, consecutive rounds have consecutive numbers and different starting players, whoever won |
| Series.ScoreBounded | main.py:283-296 | the two counters of a game add up to at most the number of rounds played in it, and a drawn round leaves them unchanged |
| Series.CountWinsBound | main.py:183-186 | no more rounds are credited to the two players than were played |

## Left out

- `cls` (main.py:7-15) is left out: it runs a shell command to clear the console.
- Printing is left out: the board pictures of `draw_field`, the messages, the banners and the round headers. Only the cell-number formula of `draw_field` (main.py:49) is modelled, as `Board.DisplayIndex`.
- The `input()` retry loops are replaced by supplied data, because the program reads the keyboard.
  - The move tokens of a round are a parameter.
  - The size and first-player questions become a `Config`, with the precondition `3 <= size <= 7` and a mark as the player (main.py:193-225).
  - The two yes/no questions become booleans in each `RoundScript` (main.py:228-262).
- The menu texts ('1'/'2', 'да'/'нет') and their `strip`/`lower` processing are not modelled, because the answers are given as already-decoded values.
- `str.isdigit` is modelled for the ASCII digits '0' to '9' only. Other Unicode digit characters, which Python also accepts, are not modelled.
- Only the end of input is modelled, as the outcome `InputExhausted`: the round ends and `App` records it and stops. The program instead ends with an uncaught exception. Other failures are not modelled.
- New rows of `init_field` are separate lists, and the model captures this by treating the field as a value. A move changes one cell and nothing else (`Board.Place`, `Round.PlayerMove`). Aliasing between Python lists is not modelled.
- The first, commented-out version of `is_win` (main.py:307-370) is left out because it is dead code.
- `is_win`'s early-returning loops are modelled as one predicate over the six sweeps, not as a loop method. Only the result is modelled, not the order in which the lines are examined.
- Series.App: gives each round its own sequence of tokens. In the program, all answers come from one input stream; the model does not capture how the moves of one round and the menu answers after it are interleaved in that stream.
