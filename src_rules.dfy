/** The functional rules of src/game/rules.py over a 6 x 7 numpy board.
    Row 0 is the BOTTOM row: a piece lands on the smallest free row index
    and the top row is row 5.  Read-only queries are functions of the
    board's contents; `drop_piece` writes the array in place and
    `simulate_move` copies it first. */
module SrcRules {
  import opened Grids

  const ROWS: nat := 6
  const COLUMNS: nat := 7
  /** The top row, the one `available_moves` checks. */
  const TOP: nat := ROWS - 1
  const PLAYER1_PIECE: int := 1
  const PLAYER2_PIECE: int := 2

  predicate IsBoard(g: Grid)
  {
    IsGrid(g, ROWS, COLUMNS)
  }

  /** The contents of a numpy board, row by row. */
  function Contents(a: array2<int>): (g: Grid)
    reads a
    ensures IsGrid(g, a.Length0, a.Length1)
    ensures forall i, j :: 0 <= i < a.Length0 && 0 <= j < a.Length1 ==> g[i][j] == a[i, j]
  {
    seq(a.Length0, i requires 0 <= i < a.Length0 reads a =>
      seq(a.Length1, j requires 0 <= j < a.Length1 reads a => a[i, j]))
  }

  /** Gravity with row 0 at the bottom: below an occupied cell every cell of
      the column is occupied. */
  predicate Stacked(g: Grid)
    requires IsBoard(g)
  {
    forall c, r1, r2 :: 0 <= c < COLUMNS && 0 <= r1 < r2 < ROWS && g[r2][c] != 0 ==> g[r1][c] != 0
  }

  // ---------------------------------------------------------------------
  // available_moves, get_next_open_row, is_valid

  /** What `available_moves` returns: a non-empty list, or the integer -1. */
  datatype Moves = Columns(cols: seq<int>) | MinusOne

  function AvailableMoves(g: Grid): (m: Moves)
    requires IsBoard(g)
    ensures m == MinusOne <==> forall i :: 0 <= i < COLUMNS ==> g[TOP][i] != 0
    ensures m.Columns? ==>
      && |m.cols| > 0
      && (forall x :: x in m.cols <==> 0 <= x < COLUMNS && g[TOP][x] == 0)
      && Increasing(m.cols)
  {
    var ms := ZeroesFrom(g[TOP], 0);
    if |ms| > 0 then
      assert ms[0] in ms;
      Columns(ms)
    else
      assert forall i :: 0 <= i < COLUMNS ==> (g[TOP][i] == 0 ==> i in ms);
      MinusOne
  }

  /** The smallest free row of column `col` from row `r` up, or -1. */
  function OpenRowFrom(g: Grid, col: nat, r: nat): (row: int)
    requires IsBoard(g) && col < COLUMNS && r <= ROWS
    ensures row == -1 || r <= row < ROWS
    ensures row >= 0 ==> g[row][col] == 0 && forall i :: r <= i < row ==> g[i][col] != 0
    ensures row == -1 <==> forall i :: r <= i < ROWS ==> g[i][col] != 0
    decreases ROWS - r
  {
    if r == ROWS then -1
    else if g[r][col] == 0 then r
    else OpenRowFrom(g, col, r + 1)
  }

  /** `get_next_open_row(board, col)`: the lowest free row, or -1 when the
      column is full. */
  function NextOpenRow(g: Grid, col: nat): (row: int)
    requires IsBoard(g) && col < COLUMNS
    ensures -1 <= row < ROWS
    ensures row >= 0 ==> g[row][col] == 0 && forall i :: 0 <= i < row ==> g[i][col] != 0
    ensures row == -1 <==> forall i :: 0 <= i < ROWS ==> g[i][col] != 0
  {
    OpenRowFrom(g, col, 0)
  }

  /** The same scan over the array itself, as the source's `for` loop. */
  method GetNextOpenRow(board: array2<int>, col: nat) returns (row: int)
    requires board.Length0 == ROWS && board.Length1 == COLUMNS && col < COLUMNS
    ensures row == NextOpenRow(Contents(board), col)
  {
    ghost var g := Contents(board);
    var r := 0;
    while r < ROWS
      invariant 0 <= r <= ROWS
      invariant OpenRowFrom(g, col, r) == OpenRowFrom(g, col, 0)
    {
      if board[r, col] == 0 {
        return r;
      }
      r := r + 1;
    }
    return -1;
  }

  /** `is_valid(board, col)`: the column is on the board and has a free
      cell. */
  function IsValid(g: Grid, col: int): (v: bool)
    requires IsBoard(g)
    ensures v <==> 0 <= col < COLUMNS && exists r :: 0 <= r < ROWS && g[r][col] == 0
  {
    if !(0 <= col < COLUMNS) then false
    else
      var row := NextOpenRow(g, col);
      0 <= row <= 5
  }

  /** On a board obeying gravity the two legality tests agree: a column is
      valid exactly when `available_moves` lists it. */
  lemma ValidIffAvailable(g: Grid, col: int)
    requires IsBoard(g) && Stacked(g)
    ensures IsValid(g, col) <==> AvailableMoves(g).Columns? && col in AvailableMoves(g).cols
  {
    if IsValid(g, col) {
      var r :| 0 <= r < ROWS && g[r][col] == 0;
      if r < TOP {
        assert g[r][col] == 0 ==> g[TOP][col] == 0;
      }
    }
  }

  // ---------------------------------------------------------------------
  // drop_piece and simulate_move

  /** numpy's reading of an index: a negative one counts from the end. */
  function Wrap(i: int, n: nat): (k: nat)
    requires -(n as int) <= i < n
    ensures k < n
    ensures i >= 0 ==> k == i
  {
    if i < 0 then i + n else i
  }

  /** `drop_piece(board, row, col, piece)`: writes exactly one cell.  The
      callers pass row -1 for a full column, which numpy reads as the top
      row. */
  method DropPiece(board: array2<int>, row: int, col: int, piece: int)
    requires -board.Length0 <= row < board.Length0 && -board.Length1 <= col < board.Length1
    modifies board
    ensures Contents(board) ==
              Set(old(Contents(board)), Wrap(row, board.Length0), Wrap(col, board.Length1), piece)
  {
    var r, c := Wrap(row, board.Length0), Wrap(col, board.Length1);
    ghost var before := Contents(board);
    board[r, c] := piece;
    GridEq(Contents(board), Set(before, r, c, piece), board.Length0, board.Length1);
  }

  /** The contents `simulate_move(board, piece, col)` returns. */
  function Simulated(g: Grid, piece: int, col: nat): (h: Grid)
    requires IsBoard(g) && col < COLUMNS
    ensures IsBoard(h)
    // a free column: its lowest free cell, and only that cell, takes the piece
    ensures NextOpenRow(g, col) >= 0 ==>
              var r := NextOpenRow(g, col);
              && g[r][col] == 0 && (forall i :: 0 <= i < r ==> g[i][col] != 0)
              && h[r][col] == piece && SameExcept(g, h, r, col)
    // a full column: row -1 is the top row, whose piece is overwritten
    ensures NextOpenRow(g, col) == -1 ==>
              h[TOP][col] == piece && SameExcept(g, h, TOP, col)
  {
    Set(g, Wrap(NextOpenRow(g, col), ROWS), col, piece)
  }

  /** `simulate_move`: a modified copy; the board passed in is not written
      (the method has no `modifies` clause). */
  method SimulateMove(board: array2<int>, piece: int, col: nat) returns (copy: array2<int>)
    requires board.Length0 == ROWS && board.Length1 == COLUMNS && col < COLUMNS
    ensures fresh(copy) && copy.Length0 == ROWS && copy.Length1 == COLUMNS
    ensures Contents(copy) == Simulated(Contents(board), piece, col)
  {
    copy := new int[ROWS, COLUMNS]((i, j) reads board =>
      if 0 <= i < board.Length0 && 0 <= j < board.Length1 then board[i, j] else 0);
    GridEq(Contents(copy), Contents(board), ROWS, COLUMNS);
    var row := GetNextOpenRow(copy, col);
    DropPiece(copy, row, col, piece);
  }

  /** Simulating a move into a free column keeps the board stacked. */
  lemma SimulatedKeepsStacked(g: Grid, piece: int, col: nat)
    requires IsBoard(g) && col < COLUMNS && Stacked(g) && NextOpenRow(g, col) >= 0 && piece != 0
    ensures Stacked(Simulated(g, piece, col))
  {
    var h := Simulated(g, piece, col);
    var r := NextOpenRow(g, col);
    forall c, r1, r2 | 0 <= c < COLUMNS && 0 <= r1 < r2 < ROWS && h[r2][c] != 0
      ensures h[r1][c] != 0
    {
      if c == col && r2 == r {
      }
    }
  }

  // ---------------------------------------------------------------------
  // winning_move and is_game_tied

  /** Some start row in [rlo, rhi) of column `c` begins a 4-cell line of `p`. */
  function AnyInColumn(g: Grid, p: int, dr: int, dc: int, c: int, rlo: int, rhi: int): (b: bool)
    requires IsBoard(g)
    ensures b <==> exists r :: rlo <= r < rhi && Line(g, ROWS, COLUMNS, r, c, dr, dc, 4, p)
    decreases rhi - rlo
  {
    if rhi <= rlo then false
    else Line(g, ROWS, COLUMNS, rlo, c, dr, dc, 4, p) || AnyInColumn(g, p, dr, dc, c, rlo + 1, rhi)
  }

  /** The double loop of one `check_*` helper: columns [clo, chi) outside,
      rows [rlo, rhi) inside. */
  function AnyInBlock(g: Grid, p: int, dr: int, dc: int, clo: int, chi: int, rlo: int, rhi: int): (b: bool)
    requires IsBoard(g)
    ensures b <==> exists r, c :: clo <= c < chi && rlo <= r < rhi && Line(g, ROWS, COLUMNS, r, c, dr, dc, 4, p)
    decreases chi - clo
  {
    if chi <= clo then false
    else AnyInColumn(g, p, dr, dc, clo, rlo, rhi) || AnyInBlock(g, p, dr, dc, clo + 1, chi, rlo, rhi)
  }

  /** `winning_move(board, piece)`: vertical, horizontal, ascending and
      descending windows, each over the start cells the source ranges over. */
  predicate WinningMove(g: Grid, p: int)
    requires IsBoard(g)
  {
    || AnyInBlock(g, p, 1, 0, 0, COLUMNS, 0, ROWS - 3)
    || AnyInBlock(g, p, 0, 1, 0, COLUMNS - 3, 0, ROWS)
    || AnyInBlock(g, p, 1, 1, 0, COLUMNS - 3, 0, ROWS - 3)
    || AnyInBlock(g, p, -1, 1, 0, COLUMNS - 3, 3, ROWS)
  }

  /** Four in a row anywhere, in any of the eight directions. */
  ghost predicate FourInARow(g: Grid, p: int)
    requires IsBoard(g)
  {
    exists r, c, dr, dc :: IsDirection(dr, dc) && Line(g, ROWS, COLUMNS, r, c, dr, dc, 4, p)
  }

  /** The four fixed scans find every four-in-a-row and nothing else. */
  lemma WinningMoveIffFourInARow(g: Grid, p: int)
    requires IsBoard(g)
    ensures WinningMove(g, p) <==> FourInARow(g, p)
  {
    if FourInARow(g, p) {
      var r, c, dr, dc :| IsDirection(dr, dc) && Line(g, ROWS, COLUMNS, r, c, dr, dc, 4, p);
      LineIsScanned(g, p, r, c, dr, dc);
    }
    if WinningMove(g, p) {
      if AnyInBlock(g, p, 1, 0, 0, COLUMNS, 0, ROWS - 3) {
        var r, c :| Line(g, ROWS, COLUMNS, r, c, 1, 0, 4, p);
        assert IsDirection(1, 0);
      } else if AnyInBlock(g, p, 0, 1, 0, COLUMNS - 3, 0, ROWS) {
        var r, c :| Line(g, ROWS, COLUMNS, r, c, 0, 1, 4, p);
        assert IsDirection(0, 1);
      } else if AnyInBlock(g, p, 1, 1, 0, COLUMNS - 3, 0, ROWS - 3) {
        var r, c :| Line(g, ROWS, COLUMNS, r, c, 1, 1, 4, p);
        assert IsDirection(1, 1);
      } else {
        var r, c :| Line(g, ROWS, COLUMNS, r, c, -1, 1, 4, p);
        assert IsDirection(-1, 1);
      }
    }
  }

  /** A line in any direction is one of the scanned windows, possibly read
      from its other end. */
  lemma LineIsScanned(g: Grid, p: int, r: int, c: int, dr: int, dc: int)
    requires IsBoard(g) && IsDirection(dr, dc) && Line(g, ROWS, COLUMNS, r, c, dr, dc, 4, p)
    ensures WinningMove(g, p)
  {
    if dc < 0 || (dc == 0 && dr < 0) {
      LineReverse(g, ROWS, COLUMNS, r, c, dr, dc, 4, p);
      ScannedForward(g, p, Step(r, dr, 3), Step(c, dc, 3), -dr, -dc);
    } else {
      ScannedForward(g, p, r, c, dr, dc);
    }
  }

  lemma ScannedForward(g: Grid, p: int, r: int, c: int, dr: int, dc: int)
    requires IsBoard(g) && IsDirection(dr, dc) && (dc > 0 || (dc == 0 && dr > 0))
    requires Line(g, ROWS, COLUMNS, r, c, dr, dc, 4, p)
    ensures WinningMove(g, p)
  {
    assert InBounds(ROWS, COLUMNS, Step(r, dr, 0), Step(c, dc, 0));
    assert InBounds(ROWS, COLUMNS, Step(r, dr, 3), Step(c, dc, 3));
    if dc == 0 {
      assert AnyInBlock(g, p, 1, 0, 0, COLUMNS, 0, ROWS - 3);
    } else if dr == 0 {
      assert AnyInBlock(g, p, 0, 1, 0, COLUMNS - 3, 0, ROWS);
    } else if dr == 1 {
      assert AnyInBlock(g, p, 1, 1, 0, COLUMNS - 3, 0, ROWS - 3);
    } else {
      assert AnyInBlock(g, p, -1, 1, 0, COLUMNS - 3, 3, ROWS);
    }
  }

  /** `is_game_tied(board)`: neither piece has a winning window and no cell
      is empty. */
  predicate IsGameTied(g: Grid)
    requires IsBoard(g)
  {
    if WinningMove(g, PLAYER1_PIECE) || WinningMove(g, PLAYER2_PIECE) then false
    else NoEmptyCell(g)
  }

  /** The scan of `is_game_tied` over `len(board)` rows and `len(board[0])`
      columns finds no 0. */
  predicate NoEmptyCell(g: Grid)
    requires IsBoard(g)
  {
    forall i, j :: 0 <= i < |g| && 0 <= j < |g[0]| ==> g[i][j] != 0
  }

  /** A tie excludes a four-in-a-row of either piece and leaves no move. */
  lemma TieExcludesWin(g: Grid)
    requires IsBoard(g) && IsGameTied(g)
    ensures !FourInARow(g, PLAYER1_PIECE) && !FourInARow(g, PLAYER2_PIECE)
    ensures AvailableMoves(g) == MinusOne
    ensures forall col :: !IsValid(g, col)
  {
    WinningMoveIffFourInARow(g, PLAYER1_PIECE);
    WinningMoveIffFourInARow(g, PLAYER2_PIECE);
    FullBoardHasNoMove(g);
  }

  lemma FullBoardHasNoMove(g: Grid)
    requires IsBoard(g) && NoEmptyCell(g)
    ensures AvailableMoves(g) == MinusOne
    ensures forall col :: !IsValid(g, col)
  {
    assert |g[0]| == COLUMNS;
  }

  /** Conversely, a full board without four-in-a-row is a tie. */
  lemma FullWithoutWinIsTie(g: Grid)
    requires IsBoard(g)
    requires !FourInARow(g, PLAYER1_PIECE) && !FourInARow(g, PLAYER2_PIECE)
    requires forall i, j :: 0 <= i < ROWS && 0 <= j < COLUMNS ==> g[i][j] != 0
    ensures IsGameTied(g)
  {
    WinningMoveIffFourInARow(g, PLAYER1_PIECE);
    WinningMoveIffFourInARow(g, PLAYER2_PIECE);
  }
}
