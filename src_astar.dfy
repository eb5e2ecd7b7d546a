/** The recursive look-ahead of src/ai/a_star.py.  `a_star(board, ai, opp)`
    tries every available column in order: a column that wins at once is
    returned straight away; otherwise the opponent's answer is found by the
    same function with the roles swapped, and the column whose board after
    that answer scores best for `ai` is kept (the first one on ties).  The
    board score comes from a module that is not part of this model and is
    a parameter here. */
module SrcAStar {
  import opened Outcomes
  import opened Grids
  import opened SrcRules

  /** `calculate_board_score(board, ai_piece, opponent_piece)`. */
  type Scorer = (Grid, int, int) -> int

  /** What Python raises for `len(-1)` when `available_moves` finds no
      column. */
  const NO_MOVES: string := "TypeError: object of type 'int' has no len()"

  // ---------------------------------------------------------------------
  // Termination: every simulated move fills one empty cell

  /** The number of empty cells of a grid. */
  function Empties(g: Grid): nat
  {
    if g == [] then 0 else Empties(g[..|g| - 1]) + Count(g[|g| - 1], 0)
  }

  lemma {:induction false} CountFill(s: seq<int>, c: nat, v: int)
    requires c < |s| && s[c] == 0 && v != 0
    ensures Count(s[c := v], 0) == Count(s, 0) - 1
  {
    if c == 0 {
      assert s[c := v][1..] == s[1..];
    } else {
      assert s[c := v][1..] == s[1..][c - 1 := v];
      CountFill(s[1..], c - 1, v);
    }
  }

  /** Writing a nonzero piece into an empty cell removes exactly one empty
      cell. */
  lemma {:induction false} EmptiesFill(g: Grid, r: nat, c: nat, v: int)
    requires r < |g| && c < |g[r]| && g[r][c] == 0 && v != 0
    ensures Empties(Set(g, r, c, v)) == Empties(g) - 1
  {
    var h := Set(g, r, c, v);
    if r == |g| - 1 {
      assert h[..|h| - 1] == g[..|g| - 1];
      CountFill(g[r], c, v);
    } else {
      assert h[..|h| - 1] == Set(g[..|g| - 1], r, c, v);
      EmptiesFill(g[..|g| - 1], r, c, v);
    }
  }

  /** A move into a column whose top cell is free lands on an empty cell,
      so the simulated board has one empty cell fewer. */
  lemma SimulatedFillsOne(g: Grid, piece: int, col: nat)
    requires IsBoard(g) && col < COLUMNS && g[TOP][col] == 0 && piece != 0
    ensures Empties(Simulated(g, piece, col)) == Empties(g) - 1
  {
    var r := NextOpenRow(g, col);
    assert r >= 0;
    EmptiesFill(g, r, col, piece);
  }

  /** With two available columns, a move into one of them leaves the other
      available: the reply always has a column to play. */
  lemma StillOpen(g: Grid, piece: int, col: int)
    requires IsBoard(g) && AvailableMoves(g).Columns? && |AvailableMoves(g).cols| >= 2
    requires col in AvailableMoves(g).cols
    ensures AvailableMoves(Simulated(g, piece, col)).Columns?
  {
    var cols := AvailableMoves(g).cols;
    var other := if cols[0] != col then cols[0] else cols[1];
    assert other in cols;
    if cols[0] == col {
      assert cols[1] != cols[0];
    }
    var h := Simulated(g, piece, col);
    assert h[TOP][other] == 0;
  }

  // ---------------------------------------------------------------------
  // The selection made by the `for col in possible_moves` loop

  /** The loop from position `i` over the columns `cols`, where `wins[j]`
      says whether `cols[j]` wins at once and `outcomes[j]` is its score
      after the opponent's answer; `best` is the best score so far (`None`
      standing for minus infinity) and `move` its column. */
  function Select(cols: seq<int>, wins: seq<bool>, outcomes: seq<int>, i: nat,
                  best: Option<int>, move: int): (c: int)
    requires |wins| == |outcomes| == |cols| && i <= |cols|
    decreases |cols| - i
  {
    if i == |cols| then move
    else if wins[i] then cols[i]
    else if best.None? || outcomes[i] > best.value then Select(cols, wins, outcomes, i + 1, Some(outcomes[i]), cols[i])
    else Select(cols, wins, outcomes, i + 1, best, move)
  }

  /** The loop returns one of the columns it was given. */
  lemma {:induction false} SelectIsAColumn(cols: seq<int>, wins: seq<bool>, outcomes: seq<int>, i: nat,
                                           best: Option<int>, move: int)
    requires |wins| == |outcomes| == |cols| && i <= |cols| && |cols| > 0
    requires (i == 0 && best.None?) || move in cols
    ensures Select(cols, wins, outcomes, i, best, move) in cols
    decreases |cols| - i
  {
    if i < |cols| && !wins[i] {
      if best.None? || outcomes[i] > best.value {
        SelectIsAColumn(cols, wins, outcomes, i + 1, Some(outcomes[i]), cols[i]);
      } else {
        SelectIsAColumn(cols, wins, outcomes, i + 1, best, move);
      }
    }
  }

  /** The first column that wins at once is returned. */
  lemma {:induction false} SelectFirstWin(cols: seq<int>, wins: seq<bool>, outcomes: seq<int>, i: nat,
                                          best: Option<int>, move: int, k: int)
    requires |wins| == |outcomes| == |cols| && i <= k < |cols|
    requires wins[k] && forall j :: i <= j < k ==> !wins[j]
    ensures Select(cols, wins, outcomes, i, best, move) == cols[k]
    decreases k - i
  {
    if i < k {
      if best.None? || outcomes[i] > best.value {
        SelectFirstWin(cols, wins, outcomes, i + 1, Some(outcomes[i]), cols[i], k);
      } else {
        SelectFirstWin(cols, wins, outcomes, i + 1, best, move, k);
      }
    }
  }

  /** Without a winning column, the loop returns the first column of
      greatest outcome, `cols[k]`: every outcome is at most its outcome,
      and every earlier column's is strictly smaller. */
  lemma {:induction false} SelectFirstMaximum(cols: seq<int>, wins: seq<bool>, outcomes: seq<int>, i: nat,
                                              best: Option<int>, move: int, m: nat)
    returns (k: nat)
    requires |wins| == |outcomes| == |cols| && i <= |cols| && |cols| > 0
    requires forall j :: i <= j < |cols| ==> !wins[j]
    // the state the loop has reached: `move` is `cols[m]`, the first maximum of the prefix
    requires (i == 0 && best.None?) || (best.Some? && m < i && move == cols[m] && best.value == outcomes[m])
    requires i > 0 ==> forall j :: 0 <= j < i ==> outcomes[j] <= best.value
    requires i > 0 ==> forall j :: 0 <= j < m ==> outcomes[j] < best.value
    ensures k < |cols| && Select(cols, wins, outcomes, i, best, move) == cols[k]
    ensures forall j :: 0 <= j < |cols| ==> outcomes[j] <= outcomes[k]
    ensures forall j :: 0 <= j < k ==> outcomes[j] < outcomes[k]
    decreases |cols| - i
  {
    if i == |cols| {
      k := m;
    } else if best.None? || outcomes[i] > best.value {
      assert forall j :: 0 <= j < i ==> outcomes[j] < outcomes[i];
      k := SelectFirstMaximum(cols, wins, outcomes, i + 1, Some(outcomes[i]), cols[i], i);
    } else {
      assert forall j :: 0 <= j < i + 1 ==> outcomes[j] <= best.value;
      k := SelectFirstMaximum(cols, wins, outcomes, i + 1, best, move, m);
    }
  }

  // ---------------------------------------------------------------------
  // The value a_star returns

  /** Whether playing `col` wins at once for `ai`: `winning_move` on the
      simulated board, read as a four-in-a-row anywhere (the two agree by
      `SrcRules.WinningMoveIffFourInARow`). */
  ghost predicate WinsAtOnce(g: Grid, ai: int, col: int)
    requires IsBoard(g)
  {
    0 <= col < COLUMNS && FourInARow(Simulated(g, ai, col), ai)
  }

  /** `a_star(board, ai, opp)`: the chosen column, or the error raised
      when the board has no free column. */
  ghost function Choose(g: Grid, ai: int, opp: int, score: Scorer): (r: Result<int, string>)
    requires IsBoard(g) && ai != 0 && opp != 0
    ensures r.Err? <==> AvailableMoves(g) == MinusOne
    ensures r.Ok? ==> AvailableMoves(g).Columns? && r.value in AvailableMoves(g).cols
    decreases Empties(g), 2
  {
    match AvailableMoves(g)
    case MinusOne => Err(NO_MOVES)
    case Columns(cols) =>
      if |cols| == 1 then Ok(cols[0])
      else
        var wins, outcomes := Wins(g, ai), Replies(g, ai, opp, score);
        SelectIsAColumn(cols, wins, outcomes, 0, None, -1);
        Ok(Select(cols, wins, outcomes, 0, None, -1))
  }

  /** Which available columns win at once, in order. */
  ghost function Wins(g: Grid, ai: int): (ws: seq<bool>)
    requires IsBoard(g) && AvailableMoves(g).Columns?
    ensures |ws| == |AvailableMoves(g).cols|
  {
    var cols := AvailableMoves(g).cols;
    seq(|cols|, j requires 0 <= j < |cols| => WinsAtOnce(g, ai, cols[j]))
  }

  /** The outcome of every available column, in order. */
  ghost function Replies(g: Grid, ai: int, opp: int, score: Scorer): (os: seq<int>)
    requires IsBoard(g) && ai != 0 && opp != 0
    requires AvailableMoves(g).Columns? && |AvailableMoves(g).cols| >= 2
    ensures |os| == |AvailableMoves(g).cols|
    decreases Empties(g), 1
  {
    var cols := AvailableMoves(g).cols;
    seq(|cols|, j requires 0 <= j < |cols| => Outcome(g, ai, opp, score, cols[j]))
  }

  /** The board score for `ai` after `ai` plays `col` and the opponent
      answers with its own `a_star` choice. */
  ghost function Outcome(g: Grid, ai: int, opp: int, score: Scorer, col: int): int
    requires IsBoard(g) && ai != 0 && opp != 0
    requires AvailableMoves(g).Columns? && |AvailableMoves(g).cols| >= 2
    requires col in AvailableMoves(g).cols
    decreases Empties(g), 0
  {
    var h := Simulated(g, ai, col);
    SimulatedFillsOne(g, ai, col);
    StillOpen(g, ai, col);
    var reply := Choose(h, opp, ai, score);
    score(Simulated(h, opp, reply.value), ai, opp)
  }

  // ---------------------------------------------------------------------
  // What the choice means

  /** A single available column is returned without looking ahead. */
  lemma OnlyMoveIsChosen(g: Grid, ai: int, opp: int, score: Scorer)
    requires IsBoard(g) && ai != 0 && opp != 0
    requires AvailableMoves(g).Columns? && |AvailableMoves(g).cols| == 1
    ensures Choose(g, ai, opp, score) == Ok(AvailableMoves(g).cols[0])
  {
  }

  /** With two or more columns, the smallest column that wins at once is
      chosen, whatever the look-ahead says about the others. */
  lemma FirstWinIsChosen(g: Grid, ai: int, opp: int, score: Scorer, k: int)
    requires IsBoard(g) && ai != 0 && opp != 0
    requires AvailableMoves(g).Columns? && |AvailableMoves(g).cols| >= 2
    requires var cols := AvailableMoves(g).cols;
      && 0 <= k < |cols| && WinsAtOnce(g, ai, cols[k])
      && forall j :: 0 <= j < k ==> !WinsAtOnce(g, ai, cols[j])
    ensures Choose(g, ai, opp, score) == Ok(AvailableMoves(g).cols[k])
  {
    SelectFirstWin(AvailableMoves(g).cols, Wins(g, ai), Replies(g, ai, opp, score), 0, None, -1, k);
  }

  /** With two or more columns and none winning at once, the chosen column
      `cols[k]` has the greatest outcome after the opponent's answer, and
      every earlier (smaller) column a strictly smaller one. */
  lemma BestOutcomeIsChosen(g: Grid, ai: int, opp: int, score: Scorer)
    requires IsBoard(g) && ai != 0 && opp != 0
    requires AvailableMoves(g).Columns? && |AvailableMoves(g).cols| >= 2
    requires forall x :: x in AvailableMoves(g).cols ==> !WinsAtOnce(g, ai, x)
    ensures var cols, os := AvailableMoves(g).cols, Replies(g, ai, opp, score);
      exists k :: 0 <= k < |cols| && Choose(g, ai, opp, score) == Ok(cols[k])
        && (forall j :: 0 <= j < |cols| ==> os[j] <= os[k])
        && (forall j :: 0 <= j < k ==> os[j] < os[k])
  {
    var cols := AvailableMoves(g).cols;
    var wins := Wins(g, ai);
    NoneWins(g, ai);
    ChooseSelects(g, ai, opp, score);
    SelectsFirstMaximum(cols, wins, Replies(g, ai, opp, score));
  }

  /** The loop started afresh over columns none of which wins at once. */
  lemma SelectsFirstMaximum(cols: seq<int>, wins: seq<bool>, outcomes: seq<int>)
    requires |wins| == |outcomes| == |cols| && |cols| > 0
    requires forall j :: 0 <= j < |cols| ==> !wins[j]
    ensures exists k ::
      && 0 <= k < |cols| && Select(cols, wins, outcomes, 0, None, -1) == cols[k]
      && (forall j :: 0 <= j < |cols| ==> outcomes[j] <= outcomes[k])
      && (forall j :: 0 <= j < k ==> outcomes[j] < outcomes[k])
  {
    var k := SelectFirstMaximum(cols, wins, outcomes, 0, None, -1, 0);
  }

  /** With two or more columns, the choice is the loop's selection. */
  lemma ChooseSelects(g: Grid, ai: int, opp: int, score: Scorer)
    requires IsBoard(g) && ai != 0 && opp != 0
    requires AvailableMoves(g).Columns? && |AvailableMoves(g).cols| >= 2
    ensures Choose(g, ai, opp, score)
         == Ok(Select(AvailableMoves(g).cols, Wins(g, ai), Replies(g, ai, opp, score), 0, None, -1))
  {
  }

  lemma NoneWins(g: Grid, ai: int)
    requires IsBoard(g) && AvailableMoves(g).Columns?
    requires forall x :: x in AvailableMoves(g).cols ==> !WinsAtOnce(g, ai, x)
    ensures forall j :: 0 <= j < |Wins(g, ai)| ==> !Wins(g, ai)[j]
  {
    var cols := AvailableMoves(g).cols;
    forall j | 0 <= j < |cols|
      ensures !Wins(g, ai)[j]
    {
      assert cols[j] in cols;
    }
  }

  // ---------------------------------------------------------------------
  // The function itself, over numpy boards

  /** `winning_move(board, piece)` on a numpy board. */
  method IsWon(board: array2<int>, piece: int) returns (won: bool)
    requires board.Length0 == ROWS && board.Length1 == COLUMNS
    ensures won <==> FourInARow(Contents(board), piece)
  {
    won := WinningMove(Contents(board), piece);
    WinningMoveIffFourInARow(Contents(board), piece);
  }

  /** One round of the `for` loop: the column is played on a copy; unless
      that wins, the opponent's answer is played on a second copy and the
      result is scored. */
  method TryColumn(board: array2<int>, ai: int, opp: int, score: Scorer, col: int)
    returns (won: bool, cur: int)
    requires board.Length0 == ROWS && board.Length1 == COLUMNS && ai != 0 && opp != 0
    requires var g := Contents(board);
      AvailableMoves(g).Columns? && |AvailableMoves(g).cols| >= 2 && col in AvailableMoves(g).cols
    ensures won == WinsAtOnce(Contents(board), ai, col)
    ensures !won ==> cur == Outcome(Contents(board), ai, opp, score, col)
    decreases Empties(Contents(board)), 0
  {
    ghost var g := Contents(board);
    var simulated := SimulateMove(board, ai, col);
    won := IsWon(simulated, ai);
    if won {
      return won, 0;
    }
    SimulatedFillsOne(g, ai, col);
    StillOpen(g, ai, col);
    var reply := AStar(simulated, opp, ai, score);
    var after := SimulateMove(simulated, opp, reply.value);
    cur := score(Contents(after), ai, opp);
  }

  /** `a_star(board, ai_piece, opponent_piece)`: every hypothetical move is
      made on a copy (the method may not write `board`), and the answer is
      the one `Choose` describes.  The opponent hint it prints is not
      modelled. */
  method AStar(board: array2<int>, ai: int, opp: int, score: Scorer) returns (r: Result<int, string>)
    requires board.Length0 == ROWS && board.Length1 == COLUMNS && ai != 0 && opp != 0
    ensures r == Choose(Contents(board), ai, opp, score)
    decreases Empties(Contents(board)), 1
  {
    ghost var g := Contents(board);
    var moves := AvailableMoves(Contents(board));
    if moves.MinusOne? {
      return Err(NO_MOVES);
    }
    var possible := moves.cols;
    if |possible| == 1 {
      return Ok(possible[0]);
    }
    ghost var wins, outcomes := Wins(g, ai), Replies(g, ai, opp, score);
    ghost var chosen := Select(possible, wins, outcomes, 0, None, -1);
    assert Choose(g, ai, opp, score) == Ok(chosen);
    var moveScore: Option<int> := None;
    var bestMove := -1;
    var i := 0;
    while i < |possible|
      invariant 0 <= i <= |possible|
      invariant Select(possible, wins, outcomes, i, moveScore, bestMove) == chosen
    {
      var col := possible[i];
      var won, cur := TryColumn(board, ai, opp, score, col);
      assert Contents(board) == g;
      assert wins[i] == won;
      if won {
        return Ok(col);
      }
      assert outcomes[i] == cur;
      if moveScore.None? || cur > moveScore.value {
        moveScore := Some(cur);
        bestMove := col;
      }
      i := i + 1;
    }
    return Ok(bestMove);
  }
}
