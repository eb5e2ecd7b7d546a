/** The object board of game/board.py.  Row 0 is the top row: a piece
    dropped into a column lands on the largest free row index.  The pure
    functions describe one snapshot of a board; the class `Board` holds the
    same fields and its methods are proved against those functions. */
module GameBoard {
  import opened Outcomes
  import opened Grids

  /** The two `ValueError`s of `drop_piece`. */
  datatype DropError = InvalidColumn | FullColumn

  /** Every field of a `Board` object. */
  datatype BoardState = BoardState(
    rows: nat, columns: nat, grid: Grid, currentPlayer: int,
    lastMove: Option<(int, int)>, winner: Option<int>, isGameOver: bool)
  {
    predicate Valid()
    {
      && rows >= 1
      && IsGrid(grid, rows, columns)
      && (lastMove.Some? ==> InBounds(rows, columns, lastMove.value.0, lastMove.value.1))
    }
  }

  function EmptyGrid(rows: nat, cols: nat): (g: Grid)
    ensures IsGrid(g, rows, cols)
    ensures forall r, c :: 0 <= r < rows && 0 <= c < cols ==> g[r][c] == 0
  {
    seq(rows, _ => seq(cols, _ => 0))
  }

  // ---------------------------------------------------------------------
  // Gravity

  /** Pieces never float: below (larger row index) an occupied cell every
      cell of the column is occupied. */
  predicate Settled(g: Grid, rows: nat, cols: nat)
    requires IsGrid(g, rows, cols)
  {
    forall c, r1, r2 :: 0 <= c < cols && 0 <= r1 < r2 < rows && g[r1][c] != 0 ==> g[r2][c] != 0
  }

  /** The largest row below `k` whose cell in column `col` is empty, or -1:
      the row `drop_piece` reaches scanning `reversed(range(k))`. */
  function OpenRow(g: Grid, col: nat, k: nat): (r: int)
    requires k <= |g| && forall i :: 0 <= i < |g| ==> col < |g[i]|
    ensures -1 <= r < k
    ensures r >= 0 ==> g[r][col] == 0 && forall i :: r < i < k ==> g[i][col] != 0
    ensures r == -1 ==> forall i :: 0 <= i < k ==> g[i][col] != 0
  {
    if k == 0 then -1
    else if g[k - 1][col] == 0 then k - 1
    else OpenRow(g, col, k - 1)
  }

  // ---------------------------------------------------------------------
  // Runs, axes and the incremental win check

  /** A measure that strictly shrinks as a walk in direction (dr, dc) moves
      over the board. */
  function Reach(rows: nat, cols: nat, r: int, c: int, dr: int, dc: int): int
  {
    (if dr > 0 then rows - r else if dr < 0 then r + 1 else 0) +
    (if dc > 0 then cols - c else if dc < 0 then c + 1 else 0)
  }

  /** Number of consecutive cells holding `p` from (r, c) in direction
      (dr, dc), stopping at the edge of the board. */
  function Run(g: Grid, rows: nat, cols: nat, r: int, c: int, dr: int, dc: int, p: int): nat
    requires IsGrid(g, rows, cols) && IsDirection(dr, dc)
    decreases Reach(rows, cols, r, c, dr, dc)
  {
    if InBounds(rows, cols, r, c) && g[r][c] == p then 1 + Run(g, rows, cols, r + dr, c + dc, dr, dc, p)
    else 0
  }

  /** The four axes of `check_win`, each walked in both senses. */
  function Axis(d: nat): (dir: (int, int))
    requires d < 4
    ensures IsDirection(dir.0, dir.1) && IsDirection(-dir.0, -dir.1)
  {
    if d == 0 then (0, 1)        // horizontal
    else if d == 1 then (1, 0)   // vertical
    else if d == 2 then (1, 1)   // diagonal /
    else (1, -1)                 // diagonal \
  }

  /** The cell itself plus the runs of equal cells on both sides of it. */
  function AxisCount(g: Grid, rows: nat, cols: nat, r: int, c: int, d: nat): nat
    requires IsGrid(g, rows, cols) && InBounds(rows, cols, r, c) && d < 4
  {
    var (dr, dc) := Axis(d);
    1 + Run(g, rows, cols, r + dr, c + dc, dr, dc, g[r][c])
      + Run(g, rows, cols, r - dr, c - dc, -dr, -dc, g[r][c])
  }

  /** What `check_win(r, c)` decides. */
  predicate WinAt(g: Grid, rows: nat, cols: nat, r: int, c: int)
    requires IsGrid(g, rows, cols) && InBounds(rows, cols, r, c)
  {
    && g[r][c] != 0
    && (|| AxisCount(g, rows, cols, r, c, 0) >= 4
        || AxisCount(g, rows, cols, r, c, 1) >= 4
        || AxisCount(g, rows, cols, r, c, 2) >= 4
        || AxisCount(g, rows, cols, r, c, 3) >= 4)
  }

  /** The 4-cell window along axis `d` whose `k`-th cell is (r, c). */
  predicate WindowAt(g: Grid, rows: nat, cols: nat, r: int, c: int, d: nat, k: int, p: int)
    requires IsGrid(g, rows, cols) && d < 4
  {
    Line(g, rows, cols, Step(r, -Axis(d).0, k), Step(c, -Axis(d).1, k), Axis(d).0, Axis(d).1, 4, p)
  }

  /** Some 4-cell window along axis `d` through (r, c) holds only `p`. */
  predicate AxisLine(g: Grid, rows: nat, cols: nat, r: int, c: int, d: nat, p: int)
    requires IsGrid(g, rows, cols) && d < 4
  {
    exists k: nat :: k < 4 && WindowAt(g, rows, cols, r, c, d, k, p)
  }

  /** The window scan that the incremental check is meant to agree with:
      some 4-cell window along one of the axes passes through (r, c) and all
      its cells hold the (nonzero) piece at (r, c). */
  predicate ThroughWindow(g: Grid, rows: nat, cols: nat, r: int, c: int)
    requires IsGrid(g, rows, cols) && InBounds(rows, cols, r, c)
  {
    && g[r][c] != 0
    && exists d: nat :: d < 4 && AxisLine(g, rows, cols, r, c, d, g[r][c])
  }

  lemma {:induction false} RunLine(g: Grid, rows: nat, cols: nat, r: int, c: int, dr: int, dc: int, p: int, n: nat)
    requires IsGrid(g, rows, cols) && IsDirection(dr, dc)
    ensures Run(g, rows, cols, r, c, dr, dc, p) >= n <==> Line(g, rows, cols, r, c, dr, dc, n, p)
    decreases n
  {
    if n > 0 {
      RunLine(g, rows, cols, r + dr, c + dc, dr, dc, p, n - 1);
      LineShift(g, rows, cols, r, c, dr, dc, p, n);
    }
  }

  /** A line of `n > 0` cells is its first cell followed by a line of
      `n - 1` cells one step further. */
  lemma LineShift(g: Grid, rows: nat, cols: nat, r: int, c: int, dr: int, dc: int, p: int, n: nat)
    requires IsGrid(g, rows, cols) && IsDirection(dr, dc) && n > 0
    ensures Line(g, rows, cols, r, c, dr, dc, n, p) <==>
      InBounds(rows, cols, r, c) && g[r][c] == p && Line(g, rows, cols, r + dr, c + dc, dr, dc, n - 1, p)
  {
    var r1, c1 := r + dr, c + dc;
    if Line(g, rows, cols, r, c, dr, dc, n, p) {
      assert InBounds(rows, cols, Step(r, dr, 0), Step(c, dc, 0));
      forall i | 0 <= i < n - 1
        ensures InBounds(rows, cols, Step(r1, dr, i), Step(c1, dc, i))
        ensures g[Step(r1, dr, i)][Step(c1, dc, i)] == p
      {
        assert Step(r1, dr, i) == Step(r, dr, i + 1);
        assert Step(c1, dc, i) == Step(c, dc, i + 1);
      }
    }
    if InBounds(rows, cols, r, c) && g[r][c] == p && Line(g, rows, cols, r1, c1, dr, dc, n - 1, p) {
      forall i | 0 <= i < n
        ensures InBounds(rows, cols, Step(r, dr, i), Step(c, dc, i))
        ensures g[Step(r, dr, i)][Step(c, dc, i)] == p
      {
        if i > 0 {
          assert Step(r1, dr, i - 1) == Step(r, dr, i);
          assert Step(c1, dc, i - 1) == Step(c, dc, i);
        }
      }
    }
  }

  /** Walking `i` steps from the start of the window whose `k`-th cell is
      x lands `i - k` steps from x. */
  lemma StepFromStart(x: int, d: int, k: int, i: int)
    requires -1 <= d <= 1
    ensures Step(Step(x, -d, k), d, i) == Step(x, d, i - k)
    ensures i < k ==> Step(Step(x, -d, k), d, i) == Step(x - d, -d, k - i - 1)
    ensures i > k ==> Step(Step(x, -d, k), d, i) == Step(x + d, d, i - k - 1)
    ensures i == k ==> Step(Step(x, -d, k), d, i) == x
  {
  }

  /** Runs of at least `k` cells behind and `3 - k` cells ahead of (r, c)
      make up the window whose `k`-th cell is (r, c). */
  lemma RunsMakeWindow(g: Grid, rows: nat, cols: nat, r: int, c: int, d: nat, k: nat)
    requires IsGrid(g, rows, cols) && InBounds(rows, cols, r, c) && d < 4 && k < 4
    requires Line(g, rows, cols, r - Axis(d).0, c - Axis(d).1, -Axis(d).0, -Axis(d).1, k, g[r][c])
    requires Line(g, rows, cols, r + Axis(d).0, c + Axis(d).1, Axis(d).0, Axis(d).1, 3 - k, g[r][c])
    ensures WindowAt(g, rows, cols, r, c, d, k, g[r][c])
  {
    var (dr, dc) := Axis(d);
    var r0, c0 := Step(r, -dr, k), Step(c, -dc, k);
    forall i | 0 <= i < 4
      ensures InBounds(rows, cols, Step(r0, dr, i), Step(c0, dc, i))
      ensures g[Step(r0, dr, i)][Step(c0, dc, i)] == g[r][c]
    {
      StepFromStart(r, dr, k, i);
      StepFromStart(c, dc, k, i);
      if i < k {
        assert 0 <= k - i - 1 < k;
      } else if i > k {
        assert 0 <= i - k - 1 < 3 - k;
      }
    }
  }

  /** Conversely, the window whose `k`-th cell is (r, c) contains runs of
      `k` cells behind and `3 - k` cells ahead of it. */
  lemma WindowMakesRuns(g: Grid, rows: nat, cols: nat, r: int, c: int, d: nat, k: nat)
    requires IsGrid(g, rows, cols) && InBounds(rows, cols, r, c) && d < 4 && k < 4
    requires WindowAt(g, rows, cols, r, c, d, k, g[r][c])
    ensures Line(g, rows, cols, r - Axis(d).0, c - Axis(d).1, -Axis(d).0, -Axis(d).1, k, g[r][c])
    ensures Line(g, rows, cols, r + Axis(d).0, c + Axis(d).1, Axis(d).0, Axis(d).1, 3 - k, g[r][c])
  {
    WindowBehind(g, rows, cols, r, c, d, k, g[r][c]);
    WindowAhead(g, rows, cols, r, c, d, k, g[r][c]);
  }

  /** The `k` cells of the window behind its `k`-th cell (r, c). */
  lemma WindowBehind(g: Grid, rows: nat, cols: nat, r: int, c: int, d: nat, k: nat, p: int)
    requires IsGrid(g, rows, cols) && d < 4 && k < 4
    requires WindowAt(g, rows, cols, r, c, d, k, p)
    ensures Line(g, rows, cols, r - Axis(d).0, c - Axis(d).1, -Axis(d).0, -Axis(d).1, k, p)
  {
    var (dr, dc) := Axis(d);
    var rb, cb, nr, nc := r - dr, c - dc, -dr, -dc;
    forall j | 0 <= j < k
      ensures InBounds(rows, cols, Step(rb, nr, j), Step(cb, nc, j)) && g[Step(rb, nr, j)][Step(cb, nc, j)] == p
    {
      WindowCell(g, rows, cols, r, c, d, k, k - j - 1, p);
      StepFromStart(r, dr, k, k - j - 1);
      StepFromStart(c, dc, k, k - j - 1);
    }
  }

  /** The `3 - k` cells of the window ahead of its `k`-th cell (r, c). */
  lemma WindowAhead(g: Grid, rows: nat, cols: nat, r: int, c: int, d: nat, k: nat, p: int)
    requires IsGrid(g, rows, cols) && d < 4 && k < 4
    requires WindowAt(g, rows, cols, r, c, d, k, p)
    ensures Line(g, rows, cols, r + Axis(d).0, c + Axis(d).1, Axis(d).0, Axis(d).1, 3 - k, p)
  {
    var (dr, dc) := Axis(d);
    var ra, ca := r + dr, c + dc;
    forall j | 0 <= j < 3 - k
      ensures InBounds(rows, cols, Step(ra, dr, j), Step(ca, dc, j)) && g[Step(ra, dr, j)][Step(ca, dc, j)] == p
    {
      WindowCell(g, rows, cols, r, c, d, k, k + j + 1, p);
      StepFromStart(r, dr, k, k + j + 1);
      StepFromStart(c, dc, k, k + j + 1);
    }
  }

  /** Cell `i` of the window whose `k`-th cell is (r, c). */
  lemma WindowCell(g: Grid, rows: nat, cols: nat, r: int, c: int, d: nat, k: nat, i: nat, p: int)
    requires IsGrid(g, rows, cols) && d < 4 && i < 4
    requires WindowAt(g, rows, cols, r, c, d, k, p)
    ensures var (dr, dc) := Axis(d); var r0, c0 := Step(r, -dr, k), Step(c, -dc, k);
      InBounds(rows, cols, Step(r0, dr, i), Step(c0, dc, i)) && g[Step(r0, dr, i)][Step(c0, dc, i)] == p
  {
  }

  /** One axis: the run through (r, c) has length at least 4 exactly when a
      4-cell window along that axis through (r, c) is all one piece. */
  lemma AxisWindow(g: Grid, rows: nat, cols: nat, r: int, c: int, d: nat)
    requires IsGrid(g, rows, cols) && InBounds(rows, cols, r, c) && d < 4
    ensures AxisCount(g, rows, cols, r, c, d) >= 4 <==> AxisLine(g, rows, cols, r, c, d, g[r][c])
  {
    if AxisCount(g, rows, cols, r, c, d) >= 4 {
      CountGivesWindow(g, rows, cols, r, c, d);
    }
    if AxisLine(g, rows, cols, r, c, d, g[r][c]) {
      var k: nat :| k < 4 && WindowAt(g, rows, cols, r, c, d, k, g[r][c]);
      WindowGivesCount(g, rows, cols, r, c, d, k);
    }
  }

  lemma CountGivesWindow(g: Grid, rows: nat, cols: nat, r: int, c: int, d: nat)
    requires IsGrid(g, rows, cols) && InBounds(rows, cols, r, c) && d < 4
    requires AxisCount(g, rows, cols, r, c, d) >= 4
    ensures AxisLine(g, rows, cols, r, c, d, g[r][c])
  {
    var (dr, dc) := Axis(d);
    var p := g[r][c];
    var b := Run(g, rows, cols, r - dr, c - dc, -dr, -dc, p);
    var k: nat := if b < 3 then b else 3;
    RunLine(g, rows, cols, r - dr, c - dc, -dr, -dc, p, k);
    RunLine(g, rows, cols, r + dr, c + dc, dr, dc, p, 3 - k);
    RunsMakeWindow(g, rows, cols, r, c, d, k);
  }

  lemma WindowGivesCount(g: Grid, rows: nat, cols: nat, r: int, c: int, d: nat, k: nat)
    requires IsGrid(g, rows, cols) && InBounds(rows, cols, r, c) && d < 4 && k < 4
    requires WindowAt(g, rows, cols, r, c, d, k, g[r][c])
    ensures AxisCount(g, rows, cols, r, c, d) >= 4
  {
    var (dr, dc) := Axis(d);
    WindowMakesRuns(g, rows, cols, r, c, d, k);
    RunLine(g, rows, cols, r - dr, c - dc, -dr, -dc, g[r][c], k);
    RunLine(g, rows, cols, r + dr, c + dc, dr, dc, g[r][c], 3 - k);
  }

  /** The incremental check from one cell agrees with a window scan through
      that cell. */
  lemma WinAtIffWindow(g: Grid, rows: nat, cols: nat, r: int, c: int)
    requires IsGrid(g, rows, cols) && InBounds(rows, cols, r, c)
    ensures WinAt(g, rows, cols, r, c) <==> ThroughWindow(g, rows, cols, r, c)
  {
    AxisWindow(g, rows, cols, r, c, 0);
    AxisWindow(g, rows, cols, r, c, 1);
    AxisWindow(g, rows, cols, r, c, 2);
    AxisWindow(g, rows, cols, r, c, 3);
    if ThroughWindow(g, rows, cols, r, c) {
      var d: nat :| d < 4 && AxisLine(g, rows, cols, r, c, d, g[r][c]);
      assert d == 0 || d == 1 || d == 2 || d == 3;
    }
  }

  // ---------------------------------------------------------------------
  // count_connected

  function Hit(g: Grid, rows: nat, cols: nat, p: int, len: int, dr: int, dc: int, r: int, c: int): nat
    requires IsGrid(g, rows, cols)
  {
    if Line(g, rows, cols, r, c, dr, dc, len, p) then 1 else 0
  }

  /** Windows starting in row `r`, columns [clo, chi), that hold only `p`. */
  function CountRow(g: Grid, rows: nat, cols: nat, p: int, len: int, dr: int, dc: int, r: int, clo: int, chi: int): nat
    requires IsGrid(g, rows, cols)
    decreases chi - clo
  {
    if chi <= clo then 0
    else CountRow(g, rows, cols, p, len, dr, dc, r, clo, chi - 1) + Hit(g, rows, cols, p, len, dr, dc, r, chi - 1)
  }

  /** Windows starting in rows [rlo, rhi), columns [clo, chi), that hold only `p`. */
  function CountRows(g: Grid, rows: nat, cols: nat, p: int, len: int, dr: int, dc: int,
                     rlo: int, rhi: int, clo: int, chi: int): nat
    requires IsGrid(g, rows, cols)
    decreases rhi - rlo
  {
    if rhi <= rlo then 0
    else
      CountRows(g, rows, cols, p, len, dr, dc, rlo, rhi - 1, clo, chi)
      + CountRow(g, rows, cols, p, len, dr, dc, rhi - 1, clo, chi)
  }

  /** What `count_connected(p, len)` returns: the four blocks of start cells
      it scans (horizontal, vertical, diagonal /, diagonal \). */
  function Connected(g: Grid, rows: nat, cols: nat, p: int, len: int): nat
    requires IsGrid(g, rows, cols)
  {
    CountRows(g, rows, cols, p, len, 0, 1, 0, rows, 0, cols - len + 1)
    + CountRows(g, rows, cols, p, len, 1, 0, 0, rows - len + 1, 0, cols)
    + CountRows(g, rows, cols, p, len, 1, 1, 0, rows - len + 1, 0, cols - len + 1)
    + CountRows(g, rows, cols, p, len, -1, 1, len - 1, rows, 0, cols - len + 1)
  }

  lemma {:induction false} CountRowHit(g: Grid, rows: nat, cols: nat, p: int, len: int, dr: int, dc: int,
                                       r: int, clo: int, chi: int, c: int)
    requires IsGrid(g, rows, cols) && clo <= c < chi && Line(g, rows, cols, r, c, dr, dc, len, p)
    ensures CountRow(g, rows, cols, p, len, dr, dc, r, clo, chi) >= 1
    decreases chi - clo
  {
    if c < chi - 1 {
      CountRowHit(g, rows, cols, p, len, dr, dc, r, clo, chi - 1, c);
    }
  }

  lemma {:induction false} CountRowsHit(g: Grid, rows: nat, cols: nat, p: int, len: int, dr: int, dc: int,
                                        rlo: int, rhi: int, clo: int, chi: int, r: int, c: int)
    requires IsGrid(g, rows, cols) && rlo <= r < rhi && clo <= c < chi
    requires Line(g, rows, cols, r, c, dr, dc, len, p)
    ensures CountRows(g, rows, cols, p, len, dr, dc, rlo, rhi, clo, chi) >= 1
    decreases rhi - rlo
  {
    if r < rhi - 1 {
      CountRowsHit(g, rows, cols, p, len, dr, dc, rlo, rhi - 1, clo, chi, r, c);
    } else {
      CountRowHit(g, rows, cols, p, len, dr, dc, r, clo, chi, c);
    }
  }

  /** A win found by `check_win(r, c)` is seen by `count_connected(p, 4)`. */
  lemma WinIsConnected(g: Grid, rows: nat, cols: nat, r: int, c: int)
    requires IsGrid(g, rows, cols) && InBounds(rows, cols, r, c)
    requires WinAt(g, rows, cols, r, c)
    ensures Connected(g, rows, cols, g[r][c], 4) >= 1
  {
    var p := g[r][c];
    WinAtIffWindow(g, rows, cols, r, c);
    var d: nat :| d < 4 && AxisLine(g, rows, cols, r, c, d, p);
    var k: nat :| k < 4 && WindowAt(g, rows, cols, r, c, d, k, p);
    LineConnected(g, rows, cols, d, Step(r, -Axis(d).0, k), Step(c, -Axis(d).1, k), p);
  }

  /** Any 4-cell line of `p` along one of the four axes is counted. */
  lemma LineConnected(g: Grid, rows: nat, cols: nat, d: nat, r0: int, c0: int, p: int)
    requires IsGrid(g, rows, cols) && d < 4
    requires Line(g, rows, cols, r0, c0, Axis(d).0, Axis(d).1, 4, p)
    ensures Connected(g, rows, cols, p, 4) >= 1
  {
    if d == 3 {
      AntiLine(g, rows, cols, r0, c0, p);
      LineCounted(g, rows, cols, -1, 1, r0 + 3, c0 - 3, p);
    } else {
      LineCounted(g, rows, cols, Axis(d).0, Axis(d).1, r0, c0, p);
    }
  }

  /** A 4-cell line of `p` from (r0, c0) in direction (dr, dc) is one of
      the windows `count_connected` scans in that direction. */
  lemma LineCounted(g: Grid, rows: nat, cols: nat, dr: int, dc: int, r0: int, c0: int, p: int)
    requires IsGrid(g, rows, cols) && (dr, dc) in {(0, 1), (1, 0), (1, 1), (-1, 1)}
    requires Line(g, rows, cols, r0, c0, dr, dc, 4, p)
    ensures dr == 0 ==> CountRows(g, rows, cols, p, 4, 0, 1, 0, rows, 0, cols - 3) >= 1
    ensures dr == 1 && dc == 0 ==> CountRows(g, rows, cols, p, 4, 1, 0, 0, rows - 3, 0, cols) >= 1
    ensures dr == 1 && dc == 1 ==> CountRows(g, rows, cols, p, 4, 1, 1, 0, rows - 3, 0, cols - 3) >= 1
    ensures dr == -1 ==> CountRows(g, rows, cols, p, 4, -1, 1, 3, rows, 0, cols - 3) >= 1
  {
    assert InBounds(rows, cols, Step(r0, dr, 0), Step(c0, dc, 0));
    assert InBounds(rows, cols, Step(r0, dr, 3), Step(c0, dc, 3));
    if dr == 0 {
      CountRowsHit(g, rows, cols, p, 4, 0, 1, 0, rows, 0, cols - 3, r0, c0);
    } else if dc == 0 {
      CountRowsHit(g, rows, cols, p, 4, 1, 0, 0, rows - 3, 0, cols, r0, c0);
    } else if dr == 1 {
      CountRowsHit(g, rows, cols, p, 4, 1, 1, 0, rows - 3, 0, cols - 3, r0, c0);
    } else {
      CountRowsHit(g, rows, cols, p, 4, -1, 1, 3, rows, 0, cols - 3, r0, c0);
    }
  }

  /** A line down-left from (r0, c0) is the same cells as the line up-right
      from its far end, which is how `count_connected` scans it. */
  lemma AntiLine(g: Grid, rows: nat, cols: nat, r0: int, c0: int, p: int)
    requires IsGrid(g, rows, cols)
    requires Line(g, rows, cols, r0, c0, 1, -1, 4, p)
    ensures Line(g, rows, cols, r0 + 3, c0 - 3, -1, 1, 4, p)
  {
    var r3, c3 := r0 + 3, c0 - 3;
    forall i | 0 <= i < 4
      ensures InBounds(rows, cols, Step(r3, -1, i), Step(c3, 1, i))
      ensures g[Step(r3, -1, i)][Step(c3, 1, i)] == p
    {
      assert Step(r3, -1, i) == Step(r0, 1, 3 - i);
      assert Step(c3, 1, i) == Step(c0, -1, 3 - i);
    }
  }

  /** Cell (r, c) sits at index `Offset(r, cols) + c` (that is,
      `r * cols + c`, by `OffsetIsProduct`) of the feature vector, and the
      player to move comes last, at index `Offset(rows, cols)`. */
  lemma FeatureIndex(g: Grid, rows: nat, cols: nat, p: int)
    requires IsGrid(g, rows, cols)
    ensures |Flatten(g) + [p]| == Offset(rows, cols) + 1
    ensures forall r: nat :: r < rows ==> Offset(r, cols) + cols <= Offset(rows, cols)
    ensures forall r: nat, c: nat :: r < rows && c < cols ==>
      (Flatten(g) + [p])[Offset(r, cols) + c] == g[r][c]
    ensures (Flatten(g) + [p])[Offset(rows, cols)] == p
  {
    FlattenLength(g, rows, cols);
    OffsetsBelow(rows, cols);
    forall r: nat, c: nat | r < rows && c < cols {
      FeatureCell(g, rows, cols, p, r, c);
    }
    assert (Flatten(g) + [p])[|Flatten(g)|] == p;
  }

  lemma FeatureCell(g: Grid, rows: nat, cols: nat, p: int, r: nat, c: nat)
    requires IsGrid(g, rows, cols) && r < rows && c < cols
    ensures |Flatten(g)| == Offset(rows, cols) && Offset(r, cols) + c < Offset(rows, cols)
    ensures (Flatten(g) + [p])[Offset(r, cols) + c] == g[r][c]
  {
    FlattenIndex(g, rows, cols, r, c);
    assert (Flatten(g) + [p])[Offset(r, cols) + c] == Flatten(g)[Offset(r, cols) + c];
  }

  // ---------------------------------------------------------------------
  // Legal moves and drop

  predicate TopRowFull(g: Grid, columns: nat)
    requires |g| >= 1 && |g[0]| == columns
  {
    forall c :: 0 <= c < columns ==> g[0][c] != 0
  }

  /** What `drop_piece(column)` does to a board: the new board and the
      returned (row, column), or the `ValueError` it raises. */
  function Drop(b: BoardState, column: int): (res: Result<(BoardState, (int, int)), DropError>)
    requires b.Valid()
    ensures res == Err(InvalidColumn) <==> column < 0 || column >= b.columns
    ensures res == Err(FullColumn) <==>
      0 <= column < b.columns && forall i :: 0 <= i < b.rows ==> b.grid[i][column] != 0
    ensures res.Ok? ==>
      var (b', (row, col)) := res.value;
      && b'.rows == b.rows && b'.columns == b.columns && b'.Valid()
      && col == column && 0 <= row < b.rows
      // the landing cell is the largest empty row of the column
      && b.grid[row][column] == 0
      && (forall i :: row < i < b.rows ==> b.grid[i][column] != 0)
      // exactly that cell changes, to the mover's piece
      && b'.grid[row][column] == b.currentPlayer
      && SameExcept(b.grid, b'.grid, row, column)
      && b'.currentPlayer == b.currentPlayer
      && b'.lastMove == Some((row, column))
      // a win is recorded; otherwise a full top row ends the game
      && (WinAt(b'.grid, b.rows, b.columns, row, column) ==>
            b'.winner == Some(b.currentPlayer) && b'.isGameOver)
      && (!WinAt(b'.grid, b.rows, b.columns, row, column) ==>
            b'.winner == b.winner &&
            b'.isGameOver == (b.isGameOver || TopRowFull(b'.grid, b.columns)))
  {
    if column < 0 || column >= b.columns then Err(InvalidColumn)
    else
      var row := OpenRow(b.grid, column, b.rows);
      if row < 0 then Err(FullColumn)
      else
        var g := Set(b.grid, row, column, b.currentPlayer);
        if WinAt(g, b.rows, b.columns, row, column) then
          Ok((b.(grid := g, lastMove := Some((row, column)), winner := Some(b.currentPlayer), isGameOver := true),
              (row, column)))
        else if TopRowFull(g, b.columns) then
          Ok((b.(grid := g, lastMove := Some((row, column)), isGameOver := true), (row, column)))
        else
          Ok((b.(grid := g, lastMove := Some((row, column))), (row, column)))
  }

  /** Dropping a piece keeps a settled board settled. */
  lemma DropKeepsSettled(b: BoardState, column: int)
    requires b.Valid() && Settled(b.grid, b.rows, b.columns) && Drop(b, column).Ok?
    ensures var b' := Drop(b, column).value.0; Settled(b'.grid, b'.rows, b'.columns)
  {
    var (b', (row, col)) := Drop(b, column).value;
    forall c, r1, r2 | 0 <= c < b.columns && 0 <= r1 < r2 < b.rows && b'.grid[r1][c] != 0
      ensures b'.grid[r2][c] != 0
    {
      if c == column && r2 > row {
      } else if c == column && r2 == row {
      } else if c == column && r1 == row {
      }
    }
  }

  // ---------------------------------------------------------------------
  // The Board object

  class Board {
    const rows: nat
    const columns: nat
    var grid: Grid
    var currentPlayer: int
    var lastMove: Option<(int, int)>
    var winner: Option<int>
    var isGameOver: bool

    function State(): BoardState
      reads this
    {
      BoardState(rows, columns, grid, currentPlayer, lastMove, winner, isGameOver)
    }

    predicate Valid()
      reads this
    {
      State().Valid()
    }

    /** `Board(rows, columns)`: an empty grid, player 1 to move. */
    constructor (rows: nat, columns: nat)
      requires rows >= 1
      ensures Valid() && this.rows == rows && this.columns == columns
      ensures grid == EmptyGrid(rows, columns)
      ensures currentPlayer == 1 && lastMove == None && winner == None && !isGameOver
    {
      this.rows := rows;
      this.columns := columns;
      grid := EmptyGrid(rows, columns);
      currentPlayer := 1;
      lastMove := None;
      winner := None;
      isGameOver := false;
    }

    /** `copy`: a new object with equal fields; being a value, the copied
        grid shares nothing with this board's. */
    method Copy() returns (b: Board)
      requires Valid()
      ensures fresh(b) && b.Valid() && b.State() == State()
    {
      b := new Board(rows, columns);
      b.grid := grid;
      b.currentPlayer := currentPlayer;
      b.lastMove := lastMove;
      b.winner := winner;
      b.isGameOver := isGameOver;
    }

    /** The inner `while` of `check_win`: how many cells holding `player`
        follow (row, col) in direction (dr, dc). */
    method Walk(row: int, col: int, dr: int, dc: int, player: int) returns (n: nat)
      requires Valid() && IsDirection(dr, dc)
      ensures n == Run(grid, rows, columns, row + dr, col + dc, dr, dc, player)
    {
      var r, c := row + dr, col + dc;
      n := 0;
      while InBounds(rows, columns, r, c) && grid[r][c] == player
        invariant Run(grid, rows, columns, row + dr, col + dc, dr, dc, player)
               == n + Run(grid, rows, columns, r, c, dr, dc, player)
        decreases Reach(rows, columns, r, c, dr, dc)
      {
        n := n + 1;
        r, c := r + dr, c + dc;
      }
    }

    /** `check_win(row, col)` with both coordinates given. */
    method CheckWinAt(row: int, col: int) returns (w: bool)
      requires Valid() && InBounds(rows, columns, row, col)
      ensures w <==> WinAt(grid, rows, columns, row, col)
    {
      var player := grid[row][col];
      if player == 0 {
        return false;
      }
      var d := 0;
      while d < 4
        invariant 0 <= d <= 4
        invariant forall e :: 0 <= e < d ==> AxisCount(grid, rows, columns, row, col, e) < 4
      {
        var (dr, dc) := Axis(d);
        var count := 1;
        var forward := Walk(row, col, dr, dc, player);
        var backward := Walk(row, col, -dr, -dc, player);
        count := count + forward + backward;
        if count >= 4 {
          return true;
        }
        d := d + 1;
      }
      return false;
    }

    /** `check_win(row, col)`: a missing coordinate falls back to the last
        move, and with no last move there is no win. */
    method CheckWin(row: Option<int>, col: Option<int>) returns (w: bool)
      requires Valid()
      requires row.Some? && col.Some? ==> InBounds(rows, columns, row.value, col.value)
      ensures row.Some? && col.Some? ==> (w <==> WinAt(grid, rows, columns, row.value, col.value))
      ensures (row.None? || col.None?) && lastMove.None? ==> !w
      ensures (row.None? || col.None?) && lastMove.Some? ==>
                (w <==> WinAt(grid, rows, columns, lastMove.value.0, lastMove.value.1))
    {
      if row.None? || col.None? {
        if lastMove.None? {
          return false;
        }
        w := CheckWinAt(lastMove.value.0, lastMove.value.1);
      } else {
        w := CheckWinAt(row.value, col.value);
      }
    }

    function IsValidMove(column: int): bool
      reads this
      requires Valid()
    {
      0 <= column < columns && grid[0][column] == 0
    }

    /** `get_legal_moves`: the valid columns in ascending order. */
    function GetLegalMoves(): (ms: seq<int>)
      reads this
      requires Valid()
      ensures forall c :: c in ms <==> IsValidMove(c)
      ensures Increasing(ms)
    {
      ZeroesFrom(grid[0], 0)
    }

    /** `drop_piece(column)`: on success exactly the state `Drop` describes;
        on a `ValueError` nothing changes. */
    method DropPiece(column: int) returns (r: Result<(int, int), DropError>)
      requires Valid()
      modifies this
      ensures Valid()
      ensures Drop(old(State()), column).Ok? ==>
                r == Ok(Drop(old(State()), column).value.1) && State() == Drop(old(State()), column).value.0
      ensures Drop(old(State()), column).Err? ==>
                r == Err(Drop(old(State()), column).error) && State() == old(State())
    {
      if column < 0 || column >= columns {
        return Err(InvalidColumn);
      }
      var row := rows - 1;
      while row >= 0
        invariant -1 <= row < rows
        invariant forall i :: row < i < rows ==> grid[i][column] != 0
        invariant State() == old(State())
      {
        if grid[row][column] == 0 {
          grid := Set(grid, row, column, currentPlayer);
          lastMove := Some((row, column));
          var won := CheckWin(None, None);
          if won {
            winner := Some(currentPlayer);
            isGameOver := true;
          } else if TopRowFull(grid, columns) {
            isGameOver := true;
          }
          return Ok((row, column));
        }
        row := row - 1;
      }
      return Err(FullColumn);
    }

    /** `count_connected(player, length)`. */
    method CountConnected(player: int, length: int) returns (count: nat)
      requires Valid()
      ensures count == Connected(grid, rows, columns, player, length)
    {
      var h := CountBlock(player, length, 0, 1, 0, rows, 0, columns - length + 1);
      var v := CountBlock(player, length, 1, 0, 0, rows - length + 1, 0, columns);
      var up := CountBlock(player, length, 1, 1, 0, rows - length + 1, 0, columns - length + 1);
      var down := CountBlock(player, length, -1, 1, length - 1, rows, 0, columns - length + 1);
      count := h + v + up + down;
    }

    /** One of the four nested `for` loops of `count_connected`. */
    method CountBlock(player: int, length: int, dr: int, dc: int, rlo: int, rhi: int, clo: int, chi: int)
      returns (count: nat)
      requires Valid()
      ensures count == CountRows(grid, rows, columns, player, length, dr, dc, rlo, rhi, clo, chi)
    {
      count := 0;
      var row := rlo;
      while row < rhi
        invariant rlo <= row && (row <= rhi || row == rlo)
        invariant count == CountRows(grid, rows, columns, player, length, dr, dc, rlo, row, clo, chi)
        decreases rhi - row
      {
        var col := clo;
        var inRow := 0;
        while col < chi
          invariant clo <= col && (col <= chi || col == clo)
          invariant inRow == CountRow(grid, rows, columns, player, length, dr, dc, row, clo, col)
          decreases chi - col
        {
          if Line(grid, rows, columns, row, col, dr, dc, length, player) {
            inRow := inRow + 1;
          }
          col := col + 1;
        }
        assert col == chi || chi <= clo;
        count := count + inRow;
        row := row + 1;
      }
      assert row == rhi || rhi <= rlo;
    }

    /** `simulate_move(column)`: the move on a copy, whose player to move is
        then flipped; this board is left as it was. */
    method SimulateMove(column: int) returns (r: Result<Board, DropError>)
      requires Valid()
      ensures Drop(State(), column).Err? ==> r == Err(Drop(State(), column).error)
      ensures Drop(State(), column).Ok? ==>
                && r.Ok? && fresh(r.value) && r.value.Valid()
                && r.value.State() == Drop(State(), column).value.0.(currentPlayer := 3 - currentPlayer)
    {
      var b := Copy();
      var dropped := b.DropPiece(column);
      if dropped.Err? {
        return Err(dropped.error);
      }
      b.currentPlayer := 3 - currentPlayer;
      return Ok(b);
    }

    /** `to_feature_vector`: the grid row by row, then the player to move. */
    method ToFeatureVector() returns (features: seq<int>)
      requires Valid()
      ensures |features| == rows * columns + 1
      ensures features == Flatten(grid) + [currentPlayer]
      ensures features[rows * columns] == currentPlayer
    {
      var cells := [];
      var i := 0;
      while i < rows
        invariant 0 <= i <= rows
        invariant cells == Flatten(grid[..i])
      {
        ghost var next := grid[..i + 1];
        assert next[..i] == grid[..i] && next[i] == grid[i];
        assert Flatten(next) == cells + grid[i];
        cells := cells + grid[i];
        i := i + 1;
      }
      assert grid[..rows] == grid;
      features := cells + [currentPlayer];
      FeatureIndex(grid, rows, columns, currentPlayer);
      OffsetIsProduct(rows, columns);
    }
  }
}
