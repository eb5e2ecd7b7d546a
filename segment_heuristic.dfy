/** The board helpers of the `AStar` class in ai/aEstrela.py and its
    near-copy ai/a_star.py.  States are 6 x 7 lists of lists with row 0 at
    the TOP, as in game/board.py: a piece falls to the largest free row. */
module SegmentHeuristic {
  import opened Grids
  import GameBoard
  import SrcRules

  const ROWS: nat := 6
  const COLUMNS: nat := 7

  predicate IsState(g: Grid)
  {
    IsGrid(g, ROWS, COLUMNS)
  }

  // ---------------------------------------------------------------------
  // get_legal_actions and apply_action

  /** `get_legal_actions(state)`: the columns whose top cell is free, in
      ascending order. */
  function LegalActions(g: Grid): (ms: seq<int>)
    requires IsState(g)
    ensures forall x :: x in ms <==> 0 <= x < COLUMNS && g[0][x] == 0
    ensures Increasing(ms) && |ms| <= COLUMNS
  {
    ZeroesFrom(g[0], 0)
  }

  /** The state `apply_action(state, action, player)` returns. */
  function Applied(g: Grid, action: nat, player: int): (h: Grid)
    requires IsState(g) && action < COLUMNS
    ensures IsState(h)
  {
    var row := GameBoard.OpenRow(g, action, ROWS);
    if row < 0 then g else Set(g, row, action, player)
  }

  /** `apply_action`: a copy of the state (lists are values here, so the
      caller's state is untouched) in which the loop from row 5 up to row 0
      writes `player` into the first free cell of the column. */
  method ApplyAction(state: Grid, action: nat, player: int) returns (next: Grid)
    requires IsState(state) && action < COLUMNS
    ensures next == Applied(state, action, player)
  {
    next := state;
    var row := ROWS - 1;
    while row >= 0
      invariant -1 <= row < ROWS
      invariant GameBoard.OpenRow(state, action, ROWS) == GameBoard.OpenRow(state, action, row + 1)
      invariant next == state
    {
      if next[row][action] == 0 {
        next := Set(next, row, action, player);
        return;
      }
      row := row - 1;
    }
  }

  /** A free column receives exactly one piece, in its lowest free cell; a
      full column gives back an unchanged copy. */
  lemma AppliedPlacesOnePiece(g: Grid, action: nat, player: int)
    requires IsState(g) && action < COLUMNS
    ensures var h := Applied(g, action, player);
      && (g[0][action] != 0 && (forall i :: 0 <= i < ROWS ==> g[i][action] != 0) ==> h == g)
      && (g[0][action] == 0 ==>
            exists row :: 0 <= row < ROWS && g[row][action] == 0
              && (forall i :: row < i < ROWS ==> g[i][action] != 0)
              && h[row][action] == player && SameExcept(g, h, row, action))
  {
    var row := GameBoard.OpenRow(g, action, ROWS);
    if g[0][action] == 0 {
      assert row >= 0;
    }
  }

  /** Applying a move only ever turns a free cell into `player`. */
  predicate OnlyAdds(g: Grid, h: Grid, player: int)
    requires IsState(g) && IsState(h)
  {
    forall r, c :: 0 <= r < ROWS && 0 <= c < COLUMNS ==>
      h[r][c] == g[r][c] || (g[r][c] == 0 && h[r][c] == player)
  }

  lemma AppliedOnlyAdds(g: Grid, action: nat, player: int)
    requires IsState(g) && action < COLUMNS
    ensures OnlyAdds(g, Applied(g, action, player), player)
  {
  }

  lemma OnlyAddsTransitive(a: Grid, b: Grid, c: Grid, player: int)
    requires IsState(a) && IsState(b) && IsState(c)
    requires OnlyAdds(a, b, player) && OnlyAdds(b, c, player)
    ensures OnlyAdds(a, c, player)
  {
  }

  // ---------------------------------------------------------------------
  // is_terminal

  /** The four checks of `is_terminal` at one start cell: a nonzero piece
      followed by three equal ones to the right, downwards, down-right, or
      up-right, each only where the window fits. */
  predicate WinFrom(g: Grid, r: int, c: int)
    requires IsState(g) && InBounds(ROWS, COLUMNS, r, c)
  {
    var p := g[r][c];
    && p != 0
    && (|| (c <= COLUMNS - 4 && Line(g, ROWS, COLUMNS, r, c, 0, 1, 4, p))
        || (r <= ROWS - 4 && Line(g, ROWS, COLUMNS, r, c, 1, 0, 4, p))
        || (r <= ROWS - 4 && c <= COLUMNS - 4 && Line(g, ROWS, COLUMNS, r, c, 1, 1, 4, p))
        || (r >= 3 && c <= COLUMNS - 4 && Line(g, ROWS, COLUMNS, r, c, -1, 1, 4, p)))
  }

  /** The inner `for c` loop of `is_terminal`, from column `c` on. */
  function WinInRow(g: Grid, r: int, c: nat): (b: bool)
    requires IsState(g) && 0 <= r < ROWS
    ensures b <==> exists j :: c <= j < COLUMNS && WinFrom(g, r, j)
    decreases COLUMNS - c
  {
    if c >= COLUMNS then false else WinFrom(g, r, c) || WinInRow(g, r, c + 1)
  }

  /** The outer `for r` loop of `is_terminal`, from row `r` on. */
  function WinInRows(g: Grid, r: nat): (b: bool)
    requires IsState(g)
    ensures b <==> exists i, j :: r <= i < ROWS && 0 <= j < COLUMNS && WinFrom(g, i, j)
    decreases ROWS - r
  {
    if r >= ROWS then false else WinInRow(g, r, 0) || WinInRows(g, r + 1)
  }

  predicate TopRowFull(g: Grid)
    requires IsState(g)
  {
    forall col :: 0 <= col < COLUMNS ==> g[0][col] != 0
  }

  /** `is_terminal(state)`: some window is a win, or row 0 has no free cell. */
  predicate IsTerminal(g: Grid)
    requires IsState(g)
  {
    WinInRows(g, 0) || TopRowFull(g)
  }

  /** The fixed start-cell checks of `is_terminal` see every four-in-a-row
      of a nonzero piece in any of the eight directions. */
  lemma TerminalIffWinOrFull(g: Grid)
    requires IsState(g)
    ensures IsTerminal(g) <==> (exists p :: p != 0 && SrcRules.FourInARow(g, p)) || TopRowFull(g)
  {
    if WinInRows(g, 0) {
      var r, c :| 0 <= r < ROWS && 0 <= c < COLUMNS && WinFrom(g, r, c);
      var p := g[r][c];
      WinFromIsWinning(g, r, c);
      SrcRules.WinningMoveIffFourInARow(g, p);
    }
    if p :| p != 0 && SrcRules.FourInARow(g, p) {
      SrcRules.WinningMoveIffFourInARow(g, p);
      WinningIsWinFrom(g, p);
    }
  }

  lemma WinFromIsWinning(g: Grid, r: int, c: int)
    requires IsState(g) && InBounds(ROWS, COLUMNS, r, c) && WinFrom(g, r, c)
    ensures SrcRules.WinningMove(g, g[r][c])
  {
  }

  lemma WinningIsWinFrom(g: Grid, p: int)
    requires IsState(g) && p != 0 && SrcRules.WinningMove(g, p)
    ensures WinInRows(g, 0)
  {
    if SrcRules.AnyInBlock(g, p, 1, 0, 0, COLUMNS, 0, ROWS - 3) {
      BlockWins(g, p, 1, 0, COLUMNS, 0, ROWS - 3);
    } else if SrcRules.AnyInBlock(g, p, 0, 1, 0, COLUMNS - 3, 0, ROWS) {
      BlockWins(g, p, 0, 1, COLUMNS - 3, 0, ROWS);
    } else if SrcRules.AnyInBlock(g, p, 1, 1, 0, COLUMNS - 3, 0, ROWS - 3) {
      BlockWins(g, p, 1, 1, COLUMNS - 3, 0, ROWS - 3);
    } else {
      BlockWins(g, p, -1, 1, COLUMNS - 3, 3, ROWS);
    }
  }

  /** A line found by one of the scans of `winning_move` starts at a cell
      `is_terminal` checks in that direction. */
  lemma BlockWins(g: Grid, p: int, dr: int, dc: int, chi: int, rlo: int, rhi: int)
    requires IsState(g) && p != 0
    requires || (dr == 1 && dc == 0 && chi == COLUMNS && rlo == 0 && rhi == ROWS - 3)
             || (dr == 0 && dc == 1 && chi == COLUMNS - 3 && rlo == 0 && rhi == ROWS)
             || (dr == 1 && dc == 1 && chi == COLUMNS - 3 && rlo == 0 && rhi == ROWS - 3)
             || (dr == -1 && dc == 1 && chi == COLUMNS - 3 && rlo == 3 && rhi == ROWS)
    requires SrcRules.AnyInBlock(g, p, dr, dc, 0, chi, rlo, rhi)
    ensures WinInRows(g, 0)
  {
    var r, c :| 0 <= c < chi && rlo <= r < rhi && Line(g, ROWS, COLUMNS, r, c, dr, dc, 4, p);
    LineWins(g, r, c, dr, dc, p);
  }

  /** A line of four of `p` starting at a cell `is_terminal` checks in
      that direction. */
  lemma LineWins(g: Grid, r: int, c: int, dr: int, dc: int, p: int)
    requires IsState(g) && InBounds(ROWS, COLUMNS, r, c) && p != 0
    requires || (dr == 0 && dc == 1 && c <= COLUMNS - 4)
             || (dr == 1 && dc == 0 && r <= ROWS - 4)
             || (dr == 1 && dc == 1 && r <= ROWS - 4 && c <= COLUMNS - 4)
             || (dr == -1 && dc == 1 && r >= 3 && c <= COLUMNS - 4)
    requires Line(g, ROWS, COLUMNS, r, c, dr, dc, 4, p)
    ensures WinInRows(g, 0)
  {
    assert g[Step(r, dr, 0)][Step(c, dc, 0)] == p;
    WinFromWins(g, r, c);
  }

  lemma WinFromWins(g: Grid, r: int, c: int)
    requires IsState(g) && InBounds(ROWS, COLUMNS, r, c) && WinFrom(g, r, c)
    ensures WinInRows(g, 0)
  {
    assert 0 <= r < ROWS && 0 <= c < COLUMNS && WinFrom(g, r, c);
  }

  // ---------------------------------------------------------------------
  // evaluate_segment

  function Pow10(k: nat): nat
  {
    if k == 0 then 1 else 10 * Pow10(k - 1)
  }

  /** `evaluate_segment(segment)` for the player `player`, whose opponent is
      `3 - player`. */
  function SegmentScore(seg: seq<int>, player: int): int
  {
    var mine := Count(seg, player);
    var theirs := Count(seg, 3 - player);
    if mine == 4 then 1000
    else if theirs == 4 then -1000
    else if mine == 3 && theirs == 0 then 100
    else if mine == 2 && theirs == 0 then 10
    else if mine == 1 && theirs == 0 then 1
    else if theirs == 3 && mine == 0 then -100
    else if theirs == 2 && mine == 0 then -10
    else if theirs == 1 && mine == 0 then -1
    else 0
  }

  /** Counts of two different values in a 4-cell window add up to at most 4. */
  lemma {:induction false} CountsDisjoint(s: seq<int>, x: int, y: int)
    requires x != y
    ensures Count(s, x) + Count(s, y) <= |s|
  {
    if s != [] {
      CountsDisjoint(s[1..], x, y);
    }
  }

  /** The table in closed form: `k` pieces of one side and none of the
      other score plus or minus 10^(k-1); mixed and empty windows score 0. */
  lemma SegmentTable(seg: seq<int>, player: int)
    requires |seg| == 4
    ensures var mine, theirs := Count(seg, player), Count(seg, 3 - player);
      && (mine > 0 && theirs == 0 ==> SegmentScore(seg, player) == Pow10(mine - 1))
      && (theirs > 0 && mine == 0 ==> SegmentScore(seg, player) == -(Pow10(theirs - 1) as int))
      && (mine > 0 && theirs > 0 ==> SegmentScore(seg, player) == 0)
      && (mine == 0 && theirs == 0 ==> SegmentScore(seg, player) == 0)
  {
    CountsDisjoint(seg, player, 3 - player);
    assert Pow10(1) == 10 && Pow10(2) == 100 && Pow10(3) == 1000;
  }

  /** Swapping the two sides negates a window's score. */
  lemma SegmentAntisymmetric(seg: seq<int>, player: int)
    requires |seg| == 4
    ensures SegmentScore(seg, 3 - player) == -SegmentScore(seg, player)
  {
    CountsDisjoint(seg, player, 3 - player);
    assert 3 - (3 - player) == player;
  }

  // ---------------------------------------------------------------------
  // The 69 windows of evaluate

  /** A 4-cell window: its start cell and its direction. */
  datatype Window = Window(r: int, c: int, dr: int, dc: int)

  /** The windows of `ws` that lie on the board, in order. */
  function Fitting(ws: seq<Window>): seq<Window>
  {
    if ws == [] then [] else (if OnBoard(ws[0]) then [ws[0]] else []) + Fitting(ws[1..])
  }

  lemma {:induction false} FittingMembers(ws: seq<Window>, w: Window)
    ensures w in Fitting(ws) <==> w in ws && OnBoard(w)
  {
    if ws != [] {
      FittingMembers(ws[1..], w);
      assert ws == [ws[0]] + ws[1..];
    }
  }

  /** The windows `evaluate` reads at start cell (r, c), in its order:
      horizontal, vertical, ascending diagonal, descending diagonal, each
      when it fits on the board. */
  function CellWindows(r: int, c: int): seq<Window>
  {
    Fitting([Window(r, c, 0, 1), Window(r, c, 1, 0), Window(r, c, 1, 1), Window(r, c, -1, 1)])
  }

  /** For a cell on the board, the four tests of `evaluate`. */
  lemma CellWindowsShape(r: int, c: int)
    requires InBounds(ROWS, COLUMNS, r, c)
    ensures CellWindows(r, c)
      == (if c <= 3 then [Window(r, c, 0, 1)] else [])
       + (if r <= 2 then [Window(r, c, 1, 0)] else [])
       + (if r <= 2 && c <= 3 then [Window(r, c, 1, 1)] else [])
       + (if r >= 3 && c <= 3 then [Window(r, c, -1, 1)] else [])
  {
    var d := [Window(r, c, -1, 1)];
    var ad := [Window(r, c, 1, 1)] + d;
    var vad := [Window(r, c, 1, 0)] + ad;
    assert d[1..] == [] && ad[1..] == d && vad[1..] == ad;
    assert [Window(r, c, 0, 1), Window(r, c, 1, 0), Window(r, c, 1, 1), Window(r, c, -1, 1)][1..] == vad;
    var h: seq<Window> := if c <= 3 then [Window(r, c, 0, 1)] else [];
    var v: seq<Window> := if r <= 2 then [Window(r, c, 1, 0)] else [];
    var a: seq<Window> := if r <= 2 && c <= 3 then [Window(r, c, 1, 1)] else [];
    assert Fitting(d) == (if r >= 3 && c <= 3 then d else []) + Fitting([]);
    assert Fitting(ad) == a + Fitting(d);
    assert Fitting(vad) == v + Fitting(ad);
    assert CellWindows(r, c) == h + Fitting(vad);
  }

  /** The windows of the start cells before (r, c) in row-major order:
      rows [0, r) in full, then columns [0, c) of row `r`. */
  function WindowsUpTo(r: nat, c: nat): seq<Window>
    decreases r, c
  {
    if c == 0 then (if r == 0 then [] else WindowsUpTo(r - 1, COLUMNS))
    else WindowsUpTo(r, c - 1) + CellWindows(r, c - 1)
  }

  /** Every window `evaluate` scores, in the order it scores them. */
  function Windows(): seq<Window>
  {
    WindowsUpTo(ROWS, 0)
  }

  /** Right, down, down-right and up-right. */
  predicate IsAxis(dr: int, dc: int)
  {
    (dr == 0 && dc == 1) || (dr == 1 && dc == 0) || (dr == 1 && dc == 1) || (dr == -1 && dc == 1)
  }

  /** A window that lies on the board along one of the four directions. */
  predicate OnBoard(w: Window)
  {
    && IsAxis(w.dr, w.dc)
    && InBounds(ROWS, COLUMNS, w.r, w.c)
    && InBounds(ROWS, COLUMNS, w.r + 3 * w.dr, w.c + 3 * w.dc)
  }

  lemma CellWindowsMembers(r: int, c: int, w: Window)
    ensures w in CellWindows(r, c) <==> w.r == r && w.c == c && OnBoard(w)
  {
    FittingMembers([Window(r, c, 0, 1), Window(r, c, 1, 0), Window(r, c, 1, 1), Window(r, c, -1, 1)], w);
  }

  lemma {:induction false} WindowsUpToMembers(r: nat, c: nat, w: Window)
    requires (r < ROWS && c <= COLUMNS) || (r == ROWS && c == 0)
    ensures w in WindowsUpTo(r, c) <==> OnBoard(w) && (w.r < r || (w.r == r && w.c < c))
    decreases r, c
  {
    if c == 0 {
      if r > 0 {
        WindowsUpToMembers(r - 1, COLUMNS, w);
        assert WindowsUpTo(r, c) == WindowsUpTo(r - 1, COLUMNS);
      } else {
        assert WindowsUpTo(r, c) == [];
      }
    } else {
      WindowsUpToMembers(r, c - 1, w);
      CellWindowsMembers(r, c - 1, w);
      assert WindowsUpTo(r, c) == WindowsUpTo(r, c - 1) + CellWindows(r, c - 1);
    }
  }

  /** `evaluate` visits exactly the windows that fit on the board. */
  lemma WindowsAreAllOnBoard(w: Window)
    ensures w in Windows() <==> OnBoard(w)
  {
    WindowsUpToMembers(ROWS, 0, w);
  }

  /** The number of windows of one direction. */
  function OfDirection(ws: seq<Window>, dr: int, dc: int): (n: nat)
    ensures n <= |ws|
  {
    if ws == [] then 0
    else OfDirection(ws[..|ws| - 1], dr, dc) + (if ws[|ws| - 1].dr == dr && ws[|ws| - 1].dc == dc then 1 else 0)
  }

  lemma {:induction false} OfDirectionAppend(a: seq<Window>, b: seq<Window>, dr: int, dc: int)
    ensures OfDirection(a + b, dr, dc) == OfDirection(a, dr, dc) + OfDirection(b, dr, dc)
    decreases |b|
  {
    if b != [] {
      assert (a + b)[..|a + b| - 1] == a + b[..|b| - 1];
      OfDirectionAppend(a, b[..|b| - 1], dr, dc);
    } else {
      assert a + b == a;
    }
  }

  lemma CellDirections(r: int, c: int)
    requires InBounds(ROWS, COLUMNS, r, c)
    ensures |CellWindows(r, c)| == (if c <= 3 then 1 else 0) + (if r <= 2 then 1 else 0)
                                  + (if r <= 2 && c <= 3 then 1 else 0) + (if r >= 3 && c <= 3 then 1 else 0)
    ensures OfDirection(CellWindows(r, c), 0, 1) == (if c <= 3 then 1 else 0)
    ensures OfDirection(CellWindows(r, c), 1, 0) == (if r <= 2 then 1 else 0)
    ensures OfDirection(CellWindows(r, c), 1, 1) == (if r <= 2 && c <= 3 then 1 else 0)
    ensures OfDirection(CellWindows(r, c), -1, 1) == (if r >= 3 && c <= 3 then 1 else 0)
  {
    var h: seq<Window> := if c <= 3 then [Window(r, c, 0, 1)] else [];
    var v: seq<Window> := if r <= 2 then [Window(r, c, 1, 0)] else [];
    var a: seq<Window> := if r <= 2 && c <= 3 then [Window(r, c, 1, 1)] else [];
    var d: seq<Window> := if r >= 3 && c <= 3 then [Window(r, c, -1, 1)] else [];
    CellWindowsShape(r, c);
    forall dr, dc | IsAxis(dr, dc)
      ensures OfDirection(CellWindows(r, c), dr, dc)
           == OfDirection(h, dr, dc) + OfDirection(v, dr, dc) + OfDirection(a, dr, dc) + OfDirection(d, dr, dc)
    {
      OfDirectionAppend(h, v, dr, dc);
      OfDirectionAppend(h + v, a, dr, dc);
      OfDirectionAppend(h + v + a, d, dr, dc);
    }
  }

  function Min4(m: int): int
  {
    if m <= 4 then m else 4
  }

  /** How many windows of direction (dr, dc) start in the first `q` rows
      and the first `m` cells of row `q`: rows 0-2 have no up-right window
      and rows 3-5 no downward one. */
  function ExpectedCount(q: nat, m: nat, dr: int, dc: int): int
  {
    if dr == 0 && dc == 1 then 4 * q + Min4(m)
    else if dr == 1 && dc == 0 then (if q <= 2 then 7 * q + m else 21)
    else if dr == 1 && dc == 1 then (if q <= 2 then 4 * q + Min4(m) else 12)
    else if dr == -1 && dc == 1 then (if q <= 2 then 0 else 4 * (q - 3) + Min4(m))
    else 0
  }

  /** The number of windows of direction (dr, dc) at start cell (r, c). */
  function CellCount(r: int, c: int, dr: int, dc: int): nat
  {
    if dr == 0 && dc == 1 then (if c <= 3 then 1 else 0)
    else if dr == 1 && dc == 0 then (if r <= 2 then 1 else 0)
    else if dr == 1 && dc == 1 then (if r <= 2 && c <= 3 then 1 else 0)
    else if dr == -1 && dc == 1 then (if r >= 3 && c <= 3 then 1 else 0)
    else 0
  }

  lemma ExpectedStep(q: nat, m: nat, dr: int, dc: int)
    requires 1 <= m <= COLUMNS && IsAxis(dr, dc)
    ensures ExpectedCount(q, m, dr, dc) == ExpectedCount(q, m - 1, dr, dc) + CellCount(q, m - 1, dr, dc)
    ensures q > 0 ==> ExpectedCount(q, 0, dr, dc) == ExpectedCount(q - 1, COLUMNS, dr, dc)
  {
  }

  lemma {:induction false} WindowsUpToCounts(q: nat, m: nat, dr: int, dc: int)
    requires (q < ROWS && m <= COLUMNS) || (q == ROWS && m == 0)
    requires IsAxis(dr, dc)
    ensures OfDirection(WindowsUpTo(q, m), dr, dc) == ExpectedCount(q, m, dr, dc)
    decreases q, m
  {
    if m == 0 {
      if q > 0 {
        WindowsUpToCounts(q - 1, COLUMNS, dr, dc);
        ExpectedStep(q, COLUMNS, dr, dc);
      }
    } else {
      WindowsUpToCounts(q, m - 1, dr, dc);
      CountsStep(q, m, dr, dc);
    }
  }

  /** One start cell more adds that cell's windows of the direction. */
  lemma CountsStep(q: nat, m: nat, dr: int, dc: int)
    requires q < ROWS && 1 <= m <= COLUMNS && IsAxis(dr, dc)
    requires OfDirection(WindowsUpTo(q, m - 1), dr, dc) == ExpectedCount(q, m - 1, dr, dc)
    ensures OfDirection(WindowsUpTo(q, m), dr, dc) == ExpectedCount(q, m, dr, dc)
  {
    assert WindowsUpTo(q, m) == WindowsUpTo(q, m - 1) + CellWindows(q, m - 1);
    OfDirectionAppend(WindowsUpTo(q, m - 1), CellWindows(q, m - 1), dr, dc);
    CellDirections(q, m - 1);
    assert OfDirection(CellWindows(q, m - 1), dr, dc) == CellCount(q, m - 1, dr, dc);
    ExpectedStep(q, m, dr, dc);
  }

  lemma {:induction false} WindowsUpToLength(q: nat, m: nat)
    requires (q < ROWS && m <= COLUMNS) || (q == ROWS && m == 0)
    ensures |WindowsUpTo(q, m)| == (if q <= 2 then 15 * q + 2 * Min4(m) + m else 45 + 8 * (q - 3) + 2 * Min4(m))
    decreases q, m
  {
    if m == 0 {
      if q > 0 {
        WindowsUpToLength(q - 1, COLUMNS);
      }
    } else {
      WindowsUpToLength(q, m - 1);
      CellDirections(q, m - 1);
    }
  }

  /** `evaluate` scores 69 windows: 24 horizontal, 21 vertical and 12 on
      each diagonal. */
  lemma WindowCounts()
    ensures |Windows()| == 69
    ensures OfDirection(Windows(), 0, 1) == 24
    ensures OfDirection(Windows(), 1, 0) == 21
    ensures OfDirection(Windows(), 1, 1) == 12
    ensures OfDirection(Windows(), -1, 1) == 12
  {
    WindowsUpToLength(ROWS, 0);
    WindowsUpToCounts(ROWS, 0, 0, 1);
    WindowsUpToCounts(ROWS, 0, 1, 0);
    WindowsUpToCounts(ROWS, 0, 1, 1);
    WindowsUpToCounts(ROWS, 0, -1, 1);
  }

  // ---------------------------------------------------------------------
  // evaluate

  /** The list comprehension `[state[r + i*dr][c + i*dc] for i in range(4)]`. */
  function Segment(g: Grid, w: Window): (seg: seq<int>)
    requires IsState(g) && OnBoard(w)
    ensures |seg| == 4
    ensures seg[0] == g[w.r][w.c] && seg[1] == g[w.r + w.dr][w.c + w.dc]
    ensures seg[2] == g[w.r + 2 * w.dr][w.c + 2 * w.dc] && seg[3] == g[w.r + 3 * w.dr][w.c + 3 * w.dc]
  {
    seq(4, i requires 0 <= i < 4 => g[w.r + i * w.dr][w.c + i * w.dc])
  }

  /** The sum of the window scores over `ws`, in order. */
  function SumScores(g: Grid, player: int, ws: seq<Window>): int
    requires IsState(g) && forall w :: w in ws ==> OnBoard(w)
  {
    if ws == [] then 0
    else SumScores(g, player, ws[..|ws| - 1]) + SegmentScore(Segment(g, ws[|ws| - 1]), player)
  }

  /** The value `evaluate(state)` computes with the heuristic. */
  function HeuristicScore(g: Grid, player: int): int
    requires IsState(g)
  {
    AllOnBoard();
    SumScores(g, player, Windows())
  }

  lemma AllOnBoard()
    ensures forall w :: w in Windows() ==> OnBoard(w)
  {
    forall w | w in Windows() ensures OnBoard(w) {
      WindowsAreAllOnBoard(w);
    }
  }

  lemma {:induction false} SumScoresAppend(g: Grid, player: int, a: seq<Window>, b: seq<Window>)
    requires IsState(g) && (forall w :: w in a ==> OnBoard(w)) && (forall w :: w in b ==> OnBoard(w))
    ensures SumScores(g, player, a + b) == SumScores(g, player, a) + SumScores(g, player, b)
    decreases |b|
  {
    if b == [] {
      assert a + b == a;
    } else {
      assert (a + b)[..|a + b| - 1] == a + b[..|b| - 1];
      SumScoresAppend(g, player, a, b[..|b| - 1]);
    }
  }

  lemma {:induction false} SumScoresAntisymmetric(g: Grid, player: int, ws: seq<Window>)
    requires IsState(g) && forall w :: w in ws ==> OnBoard(w)
    ensures SumScores(g, 3 - player, ws) == -SumScores(g, player, ws)
  {
    if ws != [] {
      SumScoresAntisymmetric(g, player, ws[..|ws| - 1]);
      SegmentAntisymmetric(Segment(g, ws[|ws| - 1]), player);
    }
  }

  /** Swapping player and opponent negates `evaluate`. */
  lemma HeuristicAntisymmetric(g: Grid, player: int)
    requires IsState(g)
    ensures HeuristicScore(g, 3 - player) == -HeuristicScore(g, player)
  {
    AllOnBoard();
    SumScoresAntisymmetric(g, player, Windows());
  }

  lemma {:induction false} SumScoresOfEmpty(g: Grid, player: int, ws: seq<Window>)
    requires IsState(g) && forall w :: w in ws ==> OnBoard(w)
    requires player == 1 || player == 2
    requires forall r, c :: 0 <= r < ROWS && 0 <= c < COLUMNS ==> g[r][c] == 0
    ensures SumScores(g, player, ws) == 0
  {
    if ws != [] {
      var w := ws[|ws| - 1];
      assert w in ws && forall v :: v in ws[..|ws| - 1] ==> v in ws;
      SumScoresOfEmpty(g, player, ws[..|ws| - 1]);
      var seg := Segment(g, w);
      assert seg == [0, 0, 0, 0];
    }
  }

  /** The empty board scores 0 for either player. */
  lemma EmptyBoardScoresZero(g: Grid, player: int)
    requires IsState(g) && (player == 1 || player == 2)
    requires forall r, c :: 0 <= r < ROWS && 0 <= c < COLUMNS ==> g[r][c] == 0
    ensures HeuristicScore(g, player) == 0
  {
    AllOnBoard();
    SumScoresOfEmpty(g, player, Windows());
  }

  /** `evaluate(state)` with the heuristic: the nested loops over rows and
      columns, adding each window's score in turn. */
  method Evaluate(state: Grid, player: int) returns (score: int)
    requires IsState(state)
    ensures score == HeuristicScore(state, player)
  {
    score := 0;
    var r := 0;
    while r < ROWS
      invariant 0 <= r <= ROWS
      invariant forall w :: w in WindowsUpTo(r, 0) ==> OnBoard(w)
      invariant score == SumScores(state, player, WindowsUpTo(r, 0))
    {
      var c := 0;
      while c < COLUMNS
        invariant 0 <= c <= COLUMNS
        invariant forall w :: w in WindowsUpTo(r, c) ==> OnBoard(w)
        invariant score == SumScores(state, player, WindowsUpTo(r, c))
      {
        PrefixStep(state, player, r, c);
        var cell := CellScores(state, player, r, c);
        score := score + cell;
        c := c + 1;
      }
      PrefixOnBoard(r + 1, 0);
      r := r + 1;
    }
  }

  /** The four `if`s of one loop iteration of `evaluate`. */
  method CellScores(state: Grid, player: int, r: int, c: int) returns (s: int)
    requires IsState(state) && InBounds(ROWS, COLUMNS, r, c)
    requires forall w :: w in CellWindows(r, c) ==> OnBoard(w)
    ensures s == SumScores(state, player, CellWindows(r, c))
  {
    ghost var h: seq<Window> := if c <= 3 then [Window(r, c, 0, 1)] else [];
    ghost var v: seq<Window> := if r <= 2 then [Window(r, c, 1, 0)] else [];
    ghost var a: seq<Window> := if r <= 2 && c <= 3 then [Window(r, c, 1, 1)] else [];
    ghost var d: seq<Window> := if r >= 3 && c <= 3 then [Window(r, c, -1, 1)] else [];
    CellWindowsShape(r, c);
    s := 0;
    ghost var seen: seq<Window> := [];
    if c <= 3 {
      s, seen := AddWindow(state, player, s, seen, Window(r, c, 0, 1));
    }
    assert seen == h && s == SumScores(state, player, seen);
    if r <= 2 {
      s, seen := AddWindow(state, player, s, seen, Window(r, c, 1, 0));
    }
    assert seen == h + v && s == SumScores(state, player, seen);
    if r <= 2 && c <= 3 {
      s, seen := AddWindow(state, player, s, seen, Window(r, c, 1, 1));
    }
    assert seen == h + v + a && s == SumScores(state, player, seen);
    if r >= 3 && c <= 3 {
      s, seen := AddWindow(state, player, s, seen, Window(r, c, -1, 1));
    }
    assert seen == h + v + a + d;
  }

  /** One `score += evaluate_segment(...)` of `evaluate`. */
  method AddWindow(state: Grid, player: int, s: int, ghost seen: seq<Window>, w: Window)
    returns (s': int, ghost seen': seq<Window>)
    requires IsState(state) && OnBoard(w) && forall v :: v in seen ==> OnBoard(v)
    requires s == SumScores(state, player, seen)
    ensures seen' == seen + [w] && forall v :: v in seen' ==> OnBoard(v)
    ensures s' == SumScores(state, player, seen')
  {
    seen' := seen + [w];
    assert seen'[..|seen'| - 1] == seen;
    s' := s + SegmentScore(Segment(state, w), player);
  }

  /** The windows before the cell after (r, c) are those before (r, c)
      followed by those of (r, c). */
  lemma PrefixStep(g: Grid, player: int, r: nat, c: nat)
    requires IsState(g) && r < ROWS && c < COLUMNS
    ensures forall w :: w in WindowsUpTo(r, c) ==> OnBoard(w)
    ensures forall w :: w in CellWindows(r, c) ==> OnBoard(w)
    ensures forall w :: w in WindowsUpTo(r, c + 1) ==> OnBoard(w)
    ensures SumScores(g, player, WindowsUpTo(r, c + 1))
         == SumScores(g, player, WindowsUpTo(r, c)) + SumScores(g, player, CellWindows(r, c))
  {
    PrefixOnBoard(r, c);
    PrefixOnBoard(r, c + 1);
    CellOnBoard(r, c);
    SumScoresAppend(g, player, WindowsUpTo(r, c), CellWindows(r, c));
  }

  lemma CellOnBoard(r: int, c: int)
    requires InBounds(ROWS, COLUMNS, r, c)
    ensures forall w :: w in CellWindows(r, c) ==> OnBoard(w)
  {
    forall w | w in CellWindows(r, c) ensures OnBoard(w) {
      CellWindowsMembers(r, c, w);
    }
  }

  lemma PrefixOnBoard(r: nat, c: nat)
    requires (r < ROWS && c <= COLUMNS) || (r == ROWS && c == 0)
    ensures forall w :: w in WindowsUpTo(r, c) ==> OnBoard(w)
  {
    forall w | w in WindowsUpTo(r, c) ensures OnBoard(w) {
      WindowsUpToMembers(r, c, w);
    }
  }

  // ---------------------------------------------------------------------
  // The learned evaluator of ai/a_star.py

  /** `_state_to_feature_vector(state)`: the 42 cells row by row. */
  method StateToFeatureVector(state: Grid) returns (features: seq<int>)
    requires IsState(state)
    ensures features == Flatten(state)
    ensures |features| == ROWS * COLUMNS
    ensures forall r, c :: 0 <= r < ROWS && 0 <= c < COLUMNS ==> features[r * COLUMNS + c] == state[r][c]
  {
    features := [];
    var i := 0;
    while i < ROWS
      invariant 0 <= i <= ROWS
      invariant features == Flatten(state[..i])
    {
      ghost var next := state[..i + 1];
      assert next[..i] == state[..i] && next[i] == state[i];
      features := features + state[i];
      i := i + 1;
    }
    assert state[..ROWS] == state;
    FlattenLength(state, ROWS, COLUMNS);
    OffsetIsProduct(ROWS, COLUMNS);
    forall r, c | 0 <= r < ROWS && 0 <= c < COLUMNS
      ensures features[r * COLUMNS + c] == state[r][c]
    {
      FlattenIndex(state, ROWS, COLUMNS, r, c);
      OffsetIsProduct(r, COLUMNS);
    }
  }

  /** How `evaluate` scores a state: the window heuristic, or (ai/a_star.py
      with a decision-tree agent) the model's prediction on the feature
      vector, whose computation is not part of this model. */
  datatype Evaluator = Heuristic | Learned(predict: seq<int> -> int)

  function Score(ev: Evaluator, g: Grid, player: int): int
    requires IsState(g)
  {
    match ev
    case Heuristic => HeuristicScore(g, player)
    case Learned(predict) => predict(Flatten(g))
  }
}
