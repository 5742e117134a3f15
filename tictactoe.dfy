/**
  The rules of 3x3 Tic-Tac-Toe: the empty board, whose turn it is, the legal
  moves, the board after a move, the winner, whether the game is over and the
  score of a finished game.

  A board is a list of three rows of three cells. The source copies the board
  before changing it, so the board is modelled by value: every operation
  returns a new board and none can alter its argument.
 */
module TicTacToe {

  /** A cell holds X, O or nothing. `Empty` is the source's EMPTY, which is
      Python's None, so a result "None" is also written `Empty`. */
  datatype Cell = X | O | Empty

  type Board = seq<seq<Cell>>

  /** A move (row, column); the source indexes the board with both parts. */
  type Action = (int, int)

  /** The two ways `result` fails: the cell is taken (the bare exception
      raised at line 68), or an index is out of range for a Python list. */
  datatype MoveError = OccupiedCell | IndexOutOfRange

  datatype Outcome = Ok(board: Board) | Err(error: MoveError)

  /** Three rows of three cells. */
  predicate Wf(b: Board) {
    |b| == 3 && |b[0]| == 3 && |b[1]| == 3 && |b[2]| == 3
  }

  function Opponent(m: Cell): Cell {
    match m
    case X => O
    case O => X
    case Empty => Empty
  }

  // ---------------------------------------------------------------------------
  // Counting marks

  /** The number of cells of `s` holding `m`. */
  function CountRow(s: seq<Cell>, m: Cell): nat {
    if s == [] then 0
    else CountRow(s[..|s| - 1], m) + (if s[|s| - 1] == m then 1 else 0)
  }

  /** The number of cells of all the rows in `rows` holding `m`. */
  function CountRows(rows: seq<seq<Cell>>, m: Cell): nat {
    if rows == [] then 0
    else CountRows(rows[..|rows| - 1], m) + CountRow(rows[|rows| - 1], m)
  }

  function Count(b: Board, m: Cell): nat {
    CountRows(b, m)
  }

  /** No cell of the board is empty. */
  predicate Full(b: Board)
    requires Wf(b)
  {
    forall i, j :: 0 <= i < 3 && 0 <= j < 3 ==> b[i][j] != Empty
  }

  /** X has made as many moves as O, or one more: the boards that alternating
      play starting with X can produce. */
  predicate Balanced(b: Board) {
    Count(b, X) == Count(b, O) || Count(b, X) == Count(b, O) + 1
  }

  lemma {:induction false} CountRowPartition(s: seq<Cell>)
    ensures CountRow(s, X) + CountRow(s, O) + CountRow(s, Empty) == |s|
  {
    if s != [] {
      CountRowPartition(s[..|s| - 1]);
    }
  }

  lemma {:induction false} CountRowsPartition(rows: seq<seq<Cell>>, n: nat)
    requires forall k :: 0 <= k < |rows| ==> |rows[k]| == n
    ensures CountRows(rows, X) + CountRows(rows, O) + CountRows(rows, Empty) == n * |rows|
  {
    if rows != [] {
      CountRowsPartition(rows[..|rows| - 1], n);
      CountRowPartition(rows[|rows| - 1]);
    }
  }

  /** Every one of the nine cells holds X, O or nothing. */
  lemma CountPartition(b: Board)
    requires Wf(b)
    ensures Count(b, X) + Count(b, O) + Count(b, Empty) == 9
  {
    CountRowsPartition(b, 3);
  }

  /** Writing `c` at position `j` of a row changes the count of `m` by the
      cell that left and the cell that arrived. */
  lemma {:induction false} CountRowUpdate(s: seq<Cell>, j: nat, c: Cell, m: Cell)
    requires j < |s|
    ensures CountRow(s[j := c], m)
            == CountRow(s, m) - (if s[j] == m then 1 else 0) + (if c == m then 1 else 0)
  {
    var t := s[j := c];
    if j < |s| - 1 {
      assert t[..|t| - 1] == s[..|s| - 1][j := c];
      CountRowUpdate(s[..|s| - 1], j, c, m);
    } else {
      assert t[..|t| - 1] == s[..|s| - 1];
    }
  }

  lemma {:induction false} CountRowsUpdate(rows: seq<seq<Cell>>, i: nat, j: nat, c: Cell, m: Cell)
    requires i < |rows| && j < |rows[i]|
    ensures CountRows(rows[i := rows[i][j := c]], m)
            == CountRows(rows, m) - (if rows[i][j] == m then 1 else 0) + (if c == m then 1 else 0)
  {
    var t := rows[i := rows[i][j := c]];
    if i < |rows| - 1 {
      assert t[..|t| - 1] == rows[..|rows| - 1][i := rows[i][j := c]];
      CountRowsUpdate(rows[..|rows| - 1], i, j, c, m);
    } else {
      assert t[..|t| - 1] == rows[..|rows| - 1];
      CountRowUpdate(rows[i], j, c, m);
    }
  }

  function Indicator(c: Cell, m: Cell): nat {
    if c == m then 1 else 0
  }

  /** The count of `m` in a row of three, cell by cell. */
  lemma CountRowByCells(s: seq<Cell>, m: Cell)
    requires |s| == 3
    ensures CountRow(s, m) == Indicator(s[0], m) + Indicator(s[1], m) + Indicator(s[2], m)
  {
    assert s[..2][..1] == s[..1] && s[..1][..0] == [];
    assert CountRow(s, m) == CountRow(s[..2], m) + Indicator(s[2], m);
    assert CountRow(s[..2], m) == CountRow(s[..1], m) + Indicator(s[1], m);
    assert CountRow(s[..1], m) == Indicator(s[0], m);
  }

  /** The count of `m` on a board, cell by cell. */
  lemma CountByCells(b: Board, m: Cell)
    requires Wf(b)
    ensures Count(b, m)
            == Indicator(b[0][0], m) + Indicator(b[0][1], m) + Indicator(b[0][2], m)
             + Indicator(b[1][0], m) + Indicator(b[1][1], m) + Indicator(b[1][2], m)
             + Indicator(b[2][0], m) + Indicator(b[2][1], m) + Indicator(b[2][2], m)
  {
    assert b[..2][..1] == b[..1] && b[..1][..0] == [];
    assert Count(b, m) == CountRows(b[..2], m) + CountRow(b[2], m);
    assert CountRows(b[..2], m) == CountRows(b[..1], m) + CountRow(b[1], m);
    assert CountRows(b[..1], m) == CountRow(b[0], m);
    CountRowByCells(b[0], m);
    CountRowByCells(b[1], m);
    CountRowByCells(b[2], m);
  }

  /** The board is full exactly when it counts no empty cell. */
  lemma FullIffNoEmptyCount(b: Board)
    requires Wf(b)
    ensures Full(b) <==> Count(b, Empty) == 0
  {
    CountByCells(b, Empty);
  }

  // ---------------------------------------------------------------------------
  // initial_state (lines 13-19)

  /** The starting board: nine empty cells. */
  function InitialState(): (b: Board)
    ensures Wf(b)
    ensures forall i, j :: 0 <= i < 3 && 0 <= j < 3 ==> b[i][j] == Empty
  {
    [[Empty, Empty, Empty],
     [Empty, Empty, Empty],
     [Empty, Empty, Empty]]
  }

  /** X moves first, on a board with nine empty cells. */
  lemma InitialStateFacts()
    ensures Count(InitialState(), X) == 0 && Count(InitialState(), O) == 0
    ensures Count(InitialState(), Empty) == 9
    ensures Mover(InitialState()) == X
    ensures Balanced(InitialState()) && !Full(InitialState())
  {
    var b := InitialState();
    CountByCells(b, X);
    CountByCells(b, O);
    CountByCells(b, Empty);
  }

  // ---------------------------------------------------------------------------
  // player (lines 22-42)

  /** Whose turn it is: X when both have played equally often, else O. */
  function Mover(b: Board): Cell {
    if Count(b, X) == Count(b, O) then X else O
  }

  /** Counts the X and O cells in nested loops and compares the counts. */
  method Player(b: Board) returns (p: Cell)
    requires Wf(b)
    ensures p == X <==> Count(b, X) == Count(b, O)
    ensures p == O <==> Count(b, X) != Count(b, O)
    ensures p == Mover(b)
  {
    var xAmount, oAmount := 0, 0;
    // Lines 30-31 iterate `for i in board` / `for j in board[i]`, which binds
    // `i` to a row list and makes `board[i]` raise; the indices 0..2 are meant.
    for i := 0 to 3
      invariant xAmount == CountRows(b[..i], X)
      invariant oAmount == CountRows(b[..i], O)
    {
      for j := 0 to 3
        invariant xAmount == CountRows(b[..i], X) + CountRow(b[i][..j], X)
        invariant oAmount == CountRows(b[..i], O) + CountRow(b[i][..j], O)
      {
        assert b[i][..j + 1][..j] == b[i][..j];
        if b[i][j] == X {
          xAmount := xAmount + 1;
        } else if b[i][j] == O {
          oAmount := oAmount + 1;
        }
      }
      assert b[i][..3] == b[i];
      assert b[..i + 1][..i] == b[..i];
    }
    assert b[..3] == b;
    if xAmount == oAmount {
      p := X;
    } else {
      p := O;
    }
  }

  // ---------------------------------------------------------------------------
  // actions (lines 44-57)

  /** The row-major position of a cell: the order in which the loops of
      `actions` and `terminal` visit it. */
  function Key(a: Action): int {
    3 * a.0 + a.1
  }

  /** `a` names a cell of the board that is empty. */
  predicate IsOpen(b: Board, a: Action)
    requires Wf(b)
  {
    0 <= a.0 < 3 && 0 <= a.1 < 3 && b[a.0][a.1] == Empty
  }

  /** Collects the coordinates of the empty cells in row-major order. */
  method Actions(b: Board) returns (acts: seq<Action>)
    requires Wf(b)
    ensures forall a :: a in acts <==> IsOpen(b, a)
    ensures forall p, q :: 0 <= p < q < |acts| ==> Key(acts[p]) < Key(acts[q])
    ensures |acts| == Count(b, Empty)
    ensures |acts| == 9 - (Count(b, X) + Count(b, O))
  {
    acts := [];
    // Lines 52-53 loop over rows rather than indices (see `Player`), and
    // line 54 tests `== "EMPTY"`, a string no cell holds; a test for an empty
    // cell over the indices 0..2 is meant.
    for i := 0 to 3
      invariant forall a :: a in acts ==> IsOpen(b, a) && Key(a) < 3 * i
      invariant forall r, c :: 0 <= r < i && 0 <= c < 3 && b[r][c] == Empty ==> (r, c) in acts
      invariant forall p, q :: 0 <= p < q < |acts| ==> Key(acts[p]) < Key(acts[q])
      invariant |acts| == CountRows(b[..i], Empty)
    {
      for j := 0 to 3
        invariant forall a :: a in acts ==> IsOpen(b, a) && Key(a) < 3 * i + j
        invariant forall r, c :: 0 <= r < 3 && 0 <= c < 3 && 3 * r + c < 3 * i + j && b[r][c] == Empty ==> (r, c) in acts
        invariant forall p, q :: 0 <= p < q < |acts| ==> Key(acts[p]) < Key(acts[q])
        invariant |acts| == CountRows(b[..i], Empty) + CountRow(b[i][..j], Empty)
      {
        assert b[i][..j + 1][..j] == b[i][..j];
        if b[i][j] == Empty {
          acts := acts + [(i, j)];
        }
      }
      assert b[i][..3] == b[i];
      assert b[..i + 1][..i] == b[..i];
    }
    assert b[..3] == b;
    CountPartition(b);
  }

  // ---------------------------------------------------------------------------
  // result (lines 59-73)

  /** Python's reading of a list index into a list of length 3: 0..2 as they
      are, -3..-1 counted from the end, anything else an IndexError. */
  function PyIndex(k: int): (r: int)
    ensures -1 <= r < 3
    ensures r >= 0 <==> -3 <= k < 3
    ensures r >= 0 ==> r % 3 == k % 3
  {
    if 0 <= k < 3 then k else if -3 <= k < 0 then k + 3 else -1
  }

  /** The board `b` with the cell (i, j) holding `m`, every other cell as it was. */
  function Place(b: Board, i: nat, j: nat, m: Cell): (r: Board)
    requires Wf(b) && i < 3 && j < 3
    ensures Wf(r)
    ensures r[i][j] == m
    ensures forall r', c :: 0 <= r' < 3 && 0 <= c < 3 && (r', c) != (i, j) ==> r[r'][c] == b[r'][c]
  {
    b[i := b[i][j := m]]
  }

  /** The board after the player to move marks `action`, or the error the
      source raises. */
  method Result(b: Board, action: Action) returns (r: Outcome)
    requires Wf(b)
    ensures r.Err? <==> !IsOpen(b, (PyIndex(action.0), PyIndex(action.1)))
    ensures r.Err? ==> (r.error == IndexOutOfRange <==> PyIndex(action.0) < 0 || PyIndex(action.1) < 0)
    ensures r.Ok? ==> r.board == Place(b, PyIndex(action.0), PyIndex(action.1), Mover(b))
  {
    // Line 64: the deep copy; a sequence is a value, so `newBoard` shares
    // nothing that an update could change in `b`.
    var newBoard := b;
    var i, j := PyIndex(action.0), PyIndex(action.1);
    if i < 0 || j < 0 {
      return Err(IndexOutOfRange);
    }
    // Line 67 tests `!= "EMPTY"`, which holds of every cell; a test for an
    // occupied cell is meant.
    if b[i][j] != Empty {
      return Err(OccupiedCell);
    }
    var mark := Player(b);
    newBoard := newBoard[i := newBoard[i][j := mark]];
    r := Ok(newBoard);
  }

  /** A move on an empty cell adds one mark of the mover, removes one empty
      cell and leaves the opponent's count alone. */
  lemma PlaceCounts(b: Board, i: nat, j: nat)
    requires Wf(b) && i < 3 && j < 3 && b[i][j] == Empty
    ensures var m := Mover(b);
      var b' := Place(b, i, j, m);
      && Count(b', m) == Count(b, m) + 1
      && Count(b', Opponent(m)) == Count(b, Opponent(m))
      && Count(b', Empty) == Count(b, Empty) - 1
  {
    var m := Mover(b);
    CountRowsUpdate(b, i, j, m, m);
    CountRowsUpdate(b, i, j, m, Opponent(m));
    CountRowsUpdate(b, i, j, m, Empty);
  }

  /** On a balanced board a move hands the turn to the other player and the
      board stays balanced. */
  lemma PlaceAlternates(b: Board, i: nat, j: nat)
    requires Wf(b) && i < 3 && j < 3 && b[i][j] == Empty
    requires Balanced(b)
    ensures var b' := Place(b, i, j, Mover(b));
      Mover(b') == Opponent(Mover(b)) && Balanced(b')
  {
    PlaceCounts(b, i, j);
  }

  /** Without balance the turn need not pass: with two more X than O, O moves
      and moves again. */
  lemma UnbalancedBoardKeepsTurn()
    ensures var b := [[X, X, Empty], [Empty, Empty, Empty], [Empty, Empty, Empty]];
      && Wf(b) && !Balanced(b) && Mover(b) == O
      && Mover(Place(b, 1, 1, Mover(b))) == O
  {
    var b := [[X, X, Empty], [Empty, Empty, Empty], [Empty, Empty, Empty]];
    CountByCells(b, X);
    CountByCells(b, O);
    PlaceCounts(b, 1, 1);
  }

  // ---------------------------------------------------------------------------
  // winner (lines 76-99)

  predicate RowWin(b: Board, r: nat, m: Cell)
    requires Wf(b) && r < 3
  {
    b[r][0] == m && b[r][1] == m && b[r][2] == m
  }

  predicate ColWin(b: Board, c: nat, m: Cell)
    requires Wf(b) && c < 3
  {
    b[0][c] == m && b[1][c] == m && b[2][c] == m
  }

  predicate DiagWin(b: Board, m: Cell)
    requires Wf(b)
  {
    b[0][0] == m && b[1][1] == m && b[2][2] == m
  }

  predicate AntiWin(b: Board, m: Cell)
    requires Wf(b)
  {
    b[0][2] == m && b[1][1] == m && b[2][0] == m
  }

  /** `m` fills one of the eight lines: what "the winner" of line 78 means. */
  predicate HasLine(b: Board, m: Cell)
    requires Wf(b)
  {
    && m != Empty
    && (|| RowWin(b, 0, m) || RowWin(b, 1, m) || RowWin(b, 2, m)
        || ColWin(b, 0, m) || ColWin(b, 1, m) || ColWin(b, 2, m)
        || DiagWin(b, m) || AntiWin(b, m))
  }

  /** `m` fills one of the four lines the first pass of the loop at line 83
      looks at: row 0, column 0 and the two diagonals. */
  predicate HasFirstPassLine(b: Board, m: Cell)
    requires Wf(b)
  {
    m != Empty && (RowWin(b, 0, m) || ColWin(b, 0, m) || DiagWin(b, m) || AntiWin(b, m))
  }

  /** Three equal cells. */
  predicate Same(p: Cell, q: Cell, r: Cell) {
    p == q && q == r
  }

  /** `winner` as written. The loop at line 83 (over indices, see `Player`)
      ends in `else: return None`, so every path of its first pass returns
      and only the checks for i == 0 ever run. A line of three empty cells
      also passes the equality test at line 85 and yields None. */
  function WinnerAsWritten(b: Board): (w: Cell)
    requires Wf(b)
    ensures w == b[0][0] || w == b[0][2] || w == Empty
    ensures w != Empty ==> HasFirstPassLine(b, w)
    ensures w == Empty <==> !HasFirstPassLine(b, X) && !HasFirstPassLine(b, O)
  {
    if Same(b[0][0], b[0][1], b[0][2]) then b[0][0]
    else if Same(b[0][0], b[1][0], b[2][0]) then b[0][0]
    else if Same(b[0][0], b[1][1], b[2][2]) then b[0][0]
    else if Same(b[0][2], b[1][1], b[2][0]) then b[0][2]
    else Empty
  }

  /** `m` fills no row and no column numbered `i` or more, and, when any
      pass is left (`i < 3`), neither diagonal. */
  predicate NoLineFrom(b: Board, i: nat, m: Cell)
    requires Wf(b)
  {
    && (forall k :: i <= k < 3 ==> !RowWin(b, k, m) && !ColWin(b, k, m))
    && (i < 3 ==> !DiagWin(b, m) && !AntiWin(b, m))
  }

  /** The loop at line 83 as intended, from pass `i` on: a pass returns only
      on a line filled by a mark, and otherwise the next pass runs. */
  function WinnerFrom(b: Board, i: nat): (w: Cell)
    requires Wf(b) && i <= 3
    ensures w != Empty ==> HasLine(b, w)
    ensures w == Empty ==> NoLineFrom(b, i, X) && NoLineFrom(b, i, O)
    decreases 3 - i
  {
    if i == 3 then Empty
    else if Same(b[i][0], b[i][1], b[i][2]) && b[i][0] != Empty then b[i][0]
    else if Same(b[0][i], b[1][i], b[2][i]) && b[0][i] != Empty then b[0][i]
    else if Same(b[0][0], b[1][1], b[2][2]) && b[0][0] != Empty then b[0][0]
    else if Same(b[0][2], b[1][1], b[2][0]) && b[0][2] != Empty then b[0][2]
    else WinnerFrom(b, i + 1)
  }

  /** The winner, if there is one: the mark of a filled line, or Empty when
      no line is filled. */
  function Winner(b: Board): (w: Cell)
    requires Wf(b)
    ensures w != Empty ==> HasLine(b, w)
    ensures w == Empty <==> !HasLine(b, X) && !HasLine(b, O)
  {
    WinnerFrom(b, 0)
  }

  /** A mark that alone fills a line is the winner. */
  lemma SoleLineWins(b: Board, m: Cell)
    requires Wf(b) && HasLine(b, m) && !HasLine(b, Opponent(m))
    ensures Winner(b) == m
  {
  }

  /** When at most one mark fills a line, the winner as written agrees with
      the intended winner exactly when there is no winner or the winning line
      is among the four the first pass looks at. */
  lemma AsWrittenAgreesOnFirstPass(b: Board)
    requires Wf(b) && !(HasLine(b, X) && HasLine(b, O))
    ensures WinnerAsWritten(b) == Winner(b)
            <==> Winner(b) == Empty || HasFirstPassLine(b, Winner(b))
  {
  }

  /** Row 1 filled by X and no other line filled: a legal position (three X,
      two O) that the winner as written reports as having no winner, so that
      a game built on it would not end there. */
  lemma AsWrittenMissesRowOne()
    ensures var b := [[O, O, Empty], [X, X, X], [Empty, Empty, Empty]];
      && Wf(b) && Balanced(b) && !Full(b)
      && HasLine(b, X) && !HasLine(b, O)
      && Winner(b) == X
      && WinnerAsWritten(b) == Empty
  {
    var b := [[O, O, Empty], [X, X, X], [Empty, Empty, Empty]];
    CountByCells(b, X);
    CountByCells(b, O);
    assert !Full(b) by { assert b[0][2] == Empty; }
  }

  // ---------------------------------------------------------------------------
  // terminal (lines 103-119)

  /** The game is over when someone has won or no cell is empty. */
  method Terminal(b: Board) returns (t: bool)
    requires Wf(b)
    ensures t <==> Winner(b) != Empty || Full(b)
    ensures t <==> HasLine(b, X) || HasLine(b, O) || Count(b, Empty) == 0
  {
    FullIffNoEmptyCount(b);
    if Winner(b) != Empty {
      return true;
    }
    // Lines 113-115: rows for indices and `== "EMPTY"` as in `Actions`.
    for i := 0 to 3
      invariant forall r, c :: 0 <= r < i && 0 <= c < 3 ==> b[r][c] != Empty
    {
      for j := 0 to 3
        invariant forall r, c :: 0 <= r < 3 && 0 <= c < 3 && 3 * r + c < 3 * i + j ==> b[r][c] != Empty
      {
        if b[i][j] == Empty {
          return false;
        }
      }
    }
    return true;
  }

  // ---------------------------------------------------------------------------
  // utility (lines 122-124: the doc-comment; the body only raises)

  /** 1 if X has won, -1 if O has won, 0 otherwise. */
  function Utility(b: Board): (u: int)
    requires Wf(b)
    ensures u == 1 <==> Winner(b) == X
    ensures u == -1 <==> Winner(b) == O
    ensures u == 0 <==> Winner(b) == Empty
  {
    match Winner(b)
    case X => 1
    case O => -1
    case Empty => 0
  }

  /** The score in terms of the filled lines: it lies in {-1, 0, 1}, is 1
      when X alone fills a line, -1 when O alone does, and 0 when no line is
      filled. */
  lemma UtilityOfLines(b: Board)
    requires Wf(b)
    ensures Utility(b) in {-1, 0, 1}
    ensures HasLine(b, X) && !HasLine(b, O) ==> Utility(b) == 1
    ensures HasLine(b, O) && !HasLine(b, X) ==> Utility(b) == -1
    ensures !HasLine(b, X) && !HasLine(b, O) ==> Utility(b) == 0
  {
  }

  // ---------------------------------------------------------------------------
  // Worked positions

  /** Boards with a win on row 0, on the diagonal, and on the diagonal among
      other marks. */
  lemma WinnerExamples()
    ensures Winner([[X, X, X], [Empty, Empty, Empty], [Empty, Empty, Empty]]) == X
    ensures Winner([[X, Empty, Empty], [Empty, X, Empty], [Empty, Empty, X]]) == X
    ensures Winner([[X, O, Empty], [O, X, Empty], [Empty, Empty, X]]) == X
    ensures WinnerAsWritten([[X, O, Empty], [O, X, Empty], [Empty, Empty, X]]) == X
  {
  }

  /** A drawn game: the board is full, nobody has won, and the score is 0. */
  lemma DrawExample()
    ensures var b := [[X, O, X], [X, O, O], [O, X, X]];
      && Wf(b) && Full(b) && Winner(b) == Empty && Utility(b) == 0
  {
  }
}
