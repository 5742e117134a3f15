# Tic-Tac-Toe rules

A Dafny model of the rules module of a 3x3 Tic-Tac-Toe player
(`0Search/tictactoe/tictactoe.py`): the starting board, whose turn it is, the
legal moves, the board after a move, the winner, whether the game is over, and
the score of a finished game. Everything lives in module `TicTacToe` in
`tictactoe.dfy`.

- A cell is `X`, `O` or `Empty`. `Empty` is the source's `EMPTY`, which is
  Python's `None`, so where the source returns `None` as "no winner" the
  model returns `Empty`.
- A board is a sequence of three rows of three cells (`Wf`). Sequences are
  values, which is what the source's `copy.deepcopy` before a move buys: a
  move builds a new board and cannot alter the old one or share rows with it.
- `player`, `actions`, `result` and `terminal` change local state step by step
  in the source (counters, a list that grows, a copied board, a loop with an
  early return), so they are methods, with nested loops in `Player`, `Actions`
  and `Terminal` and one update of the copied board in `Result`, proved against
  specification functions: `Count`, `Mover`, `IsOpen`, `Place`, `Full`,
  `HasLine`.
  `initial_state`, `winner` and `utility` are functions.
- `result` takes its indices as Python does: `-3..-1` count from the end of a
  row or of the board (`PyIndex`), other values outside `0..2` raise an
  IndexError (`IndexOutOfRange`); an occupied cell raises the bare exception of
  line 68 (`OccupiedCell`).

Reading of the source. Three spots in the file do not do what their comments
and doc-comments say; each is marked in `tictactoe.dfy` with its line numbers.

- Lines 30-31, 52-53, 83 and 113-114 loop with `for i in board` and
  `for j in board[i]`, which binds `i` to a row (a list), so `board[i]` would
  raise a TypeError. The bodies index with `i` and `j`, so the loops are read as
  running over the indices 0, 1, 2.
- Lines 54, 67 and 115 compare a cell with the string `"EMPTY"`, while `EMPTY`
  is `None` (line 10), so as written no cell ever counts as empty. They are read
  as tests against `Empty`.
- `winner` (lines 83-99) returns on every path of the first pass of its loop;
  see "## Findings". The intended winner (`Winner`) is what `Terminal` and
  `Utility` use.

## Model

| member | source | states |
|---|---|---|
| TicTacToe.InitialState | 0Search/tictactoe/tictactoe.py:13-19 | the starting board is three rows of three cells, all empty |
| TicTacToe.InitialStateFacts | 0Search/tictactoe/tictactoe.py:39-42 | on the starting board no X and no O are counted, nine cells are empty, the board is balanced and not full, and X is to move |
| TicTacToe.Player | 0Search/tictactoe/tictactoe.py:22-42 | the nested counting loops return X exactly when the board holds as many X as O, and O otherwise; the loop invariants tie the running counters to the counts of the rows already visited |
| TicTacToe.CountPartition | 0Search/tictactoe/tictactoe.py:29-35 | each of the nine cells is counted as exactly one of X, O or empty |
| TicTacToe.Actions | 0Search/tictactoe/tictactoe.py:44-57 | the list holds an action exactly when it names an in-range empty cell, in strictly increasing row-major order (so without duplicates), and its length is the number of empty cells, 9 minus the occupied cells |
| TicTacToe.PyIndex | 0Search/tictactoe/tictactoe.py:67 | a list index is valid exactly when it lies in -3..2, and a valid index names the position congruent to it modulo 3 |
| TicTacToe.Place | 0Search/tictactoe/tictactoe.py:64-71 | the copied board holds the given mark at the move's cell and equals the old board at every other cell |
| TicTacToe.Result | 0Search/tictactoe/tictactoe.py:59-73 | the move fails exactly when its cell is out of range or occupied, with an index error exactly in the first case; otherwise the new board is the old one with the mover's mark at that cell |
| TicTacToe.PlaceCounts | 0Search/tictactoe/tictactoe.py:71 | a move on an empty cell raises the mover's count by one, lowers the empty count by one and leaves the opponent's count alone |
| TicTacToe.PlaceAlternates | 0Search/tictactoe/tictactoe.py:39-42 | on a board where X leads O by zero or one, a move passes the turn to the other player and keeps that balance |
| TicTacToe.UnbalancedBoardKeepsTurn | 0Search/tictactoe/tictactoe.py:39-42 | on a board with two more X than O, O is to move before and after O's move: alternation needs the balance |
| TicTacToe.WinnerAsWritten | 0Search/tictactoe/tictactoe.py:83-99 | the code as written returns the top-left or top-right cell or None; it returns a mark only for a line among row 0, column 0 and the two diagonals filled by that mark, and None exactly when no mark fills one of those four |
| TicTacToe.WinnerFrom | 0Search/tictactoe/tictactoe.py:83-99 | the intended loop from pass i returns only a mark that fills some line, and returns None only when no mark fills a row or column numbered i or more, nor (with a pass left) a diagonal |
| TicTacToe.Winner | 0Search/tictactoe/tictactoe.py:76-99 | the winner fills one of the eight lines, and there is no winner exactly when neither X nor O fills a line |
| TicTacToe.SoleLineWins | 0Search/tictactoe/tictactoe.py:78 | a mark that alone fills a line is the winner |
| TicTacToe.AsWrittenAgreesOnFirstPass | 0Search/tictactoe/tictactoe.py:83-99 | when at most one mark fills a line, the code as written agrees with the intended winner if and only if there is no winner or the winning line is row 0, column 0 or a diagonal |
| TicTacToe.AsWrittenMissesRowOne | 0Search/tictactoe/tictactoe.py:78-99 | on a balanced, unfinished board where X alone fills row 1, the winner is X but the code as written returns None |
| TicTacToe.WinnerExamples | 0Search/tictactoe/tictactoe.py:76-99 | X wins with row 0, with the main diagonal, and with the main diagonal among other marks (also as written) |
| TicTacToe.FullIffNoEmptyCount | 0Search/tictactoe/tictactoe.py:111-119 | a board has no empty cell exactly when its count of empty cells is zero |
| TicTacToe.Terminal | 0Search/tictactoe/tictactoe.py:103-119 | the game is over exactly when there is a winner (the corrected `Winner`, not the winner as written) or no cell is empty, that is, when X or O fills a line or no empty cell is counted |
| TicTacToe.Utility | 0Search/tictactoe/tictactoe.py:122-124 | the score is 1 exactly when X has won, -1 exactly when O has won, and 0 exactly when nobody has |
| TicTacToe.UtilityOfLines | 0Search/tictactoe/tictactoe.py:122-124 | the score lies in {-1, 0, 1}; it is 1 when only X fills a line, -1 when only O does, 0 when no line is filled |
| TicTacToe.DrawExample | 0Search/tictactoe/tictactoe.py:103-124 | a full board with no filled line has no winner and scores 0 |

## Left out

- `minimax` (lines 129-133): its body only raises NotImplementedError and its doc-comment names no algorithm, so there is nothing to model.
- The body of `utility` (line 126) only raises NotImplementedError; `Utility` models its doc-comment.
- The exception classes: the bare `Exception` of line 68 and Python's IndexError are the two values of `MoveError`, not a class hierarchy.
- `copy.deepcopy` and aliasing: boards are values, so the copy is implicit and the input board cannot change; the `math` import is unused.
- Boards that are not three rows of three cells, cells that are not X, O or None, and actions that are not pairs of integers: every operation requires `Wf`, and the source has no checks for these and would raise or misread them.
- `result` has no case for a missing action, no operation checks the board's shape, and there is no search (`minimax` only raises).
- Terminal: built on the corrected `Winner`, so on a board where only row 1, row 2, column 1 or column 2 is filled and a cell is still empty it returns true, where line 108's call to `winner` as written gives None and the function returns False at line 116.
- A game loop, rendering and user input are not part of this module.

## Findings

| source | as written | input that shows it | evidently intended | confidence | as-written member | corrected member |
|---|---|---|---|---|---|---|
| 0Search/tictactoe/tictactoe.py:83-99 | the `else: return None` at line 98 ends the first pass of the loop, so only row 0, column 0 and the two diagonals are checked; three empty cells also pass the equality test and give None | `[[O, O, None], [X, X, X], [None, None, None]]` returns None although X fills row 1, so `terminal` would call the game unfinished | return the mark that fills any of the eight lines, None when none is filled (doc-comment, line 78) | not executed | TicTacToe.WinnerAsWritten, TicTacToe.AsWrittenMissesRowOne | TicTacToe.Winner |
