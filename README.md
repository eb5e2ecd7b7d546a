# Connect Four engine: a verified Dafny model

This project models the game engine of a Connect Four repository written in
Python: a six-row by seven-column board where pieces drop to the lowest free
cell of a column and four equal pieces in a row, column or diagonal win.
The repository carries several overlapping copies of the engine, and each
one is a module here:

- `GameBoard` (`board.dfy`) is the object board of `game/board.py`, where
  row 0 is the top row. It covers drop, legality, the incremental win check
  from the last move, window counting, copy, simulated move and feature
  export. A `Board` class holds the fields the source updates in place. Its
  methods are proved against the pure `Drop`, `WinAt` and `Connected`
  specifications.
- `SrcRules` (`src_rules.dfy`) is the functional board of
  `src/game/rules.py`, a numpy 6 x 7 array where row 0 is the bottom row.
  The array operations are `array2` methods, proved against pure functions
  on the grid's contents.
- `GameRules` (`rules.dfy`) is the three-valued `evaluate` and `is_terminal`
  of `game/rules.py`, over abstract `check_winner` and `is_full`.
- `SegmentHeuristic`, `SegmentFrontier` and `SegmentSearch` cover the
  windowed score and the bounded best-first search shared by
  `ai/aEstrela.py` and `ai/a_star.py`.
- `SrcAStar` is the recursive one-reply look-ahead of `src/ai/a_star.py`.
- `MctsArena` and `Mcts` are the tree search of `ai/mcts.py`.
  `SrcMctsArena` and `SrcMcts` are the tree search of `src/ai/mcts.py`.
  Each tree is a class whose node fields are sequences indexed by node
  number (an arena), with the parent always numbered below the child.
- `DecisionData`, `ThresholdTree`, `MultiwayTree`, `DictTree`, `ListTree`
  and `TreePlay` cover the decision trees:
  - the binary threshold tree of `ai/decision_tree.py`;
  - the multi-way trees of `src/ai/decision_tree.py`,
    `ai/decisision_tree.py` and `ai/decisision_tree_connect4.py`;
  - the `play` methods that pick a column from the trees' predictions.
- `Outcomes` and `Grids` (`common.dfy`) hold the shared Option/Result types,
  the grid helpers and row-major flattening.

Randomness is modelled as nondeterminism. A method draws with `:|`, so its
contract holds for every possible draw. A function takes the choice as a
parameter. Floating-point scores are abstract function parameters:
UCT/UCB values, entropy and Gini impurity, the learned evaluator and the
heuristic of `src/ai/a_star.py`. The integer bookkeeping around these
scores is exact.

## Model

| member | source | states |
|---|---|---|
| GameBoard.EmptyGrid | game/board.py:5 | a new grid has `rows` rows of `columns` zeros |
| GameBoard.OpenRow | game/board.py:25-26 | the landing row is the largest empty row of the column, with every cell below it filled, or -1 when the column is full |
| GameBoard.RunLine | game/board.py:64-70 | the inner walk counts at least `n` cells exactly when the next `n` cells in that direction lie on the board and hold the piece |
| GameBoard.RunsMakeWindow | game/board.py:60-72 | runs of `k` cells behind and `3 - k` ahead of a cell form a 4-cell window of its piece |
| GameBoard.WindowMakesRuns | game/board.py:60-72 | a 4-cell window through a cell gives runs of its piece on both sides of the cell |
| GameBoard.AxisWindow | game/board.py:60-72 | on one axis, the count through (r, c) reaches 4 exactly when some 4-cell window on that axis through (r, c) holds only that cell's piece |
| GameBoard.CountGivesWindow | game/board.py:60-72 | a count of at least 4 on an axis yields a window of four equal pieces |
| GameBoard.WindowGivesCount | game/board.py:60-72 | a window of four equal pieces through the cell makes the count reach 4 |
| GameBoard.WinAtIffWindow | game/board.py:42-73 | `check_win(r, c)` holds exactly when the cell is occupied and some horizontal, vertical or diagonal window of four through it holds only that piece |
| GameBoard.WinAt | game/board.py:42-73 | the decision `check_win(r, c)` makes: the cell is occupied and one of its four axes runs to four; its meaning is stated by `WinAtIffWindow` |
| GameBoard.CountRowHit | game/board.py:87-105 | a line of `length` pieces starting in a scanned row is counted at least once |
| GameBoard.CountRowsHit | game/board.py:87-105 | a line of `length` pieces starting in a scanned block of start cells is counted at least once |
| GameBoard.LineCounted | game/board.py:83-106 | a 4-line in each of the four scanned directions lies in that direction's block of start cells and is counted |
| GameBoard.LineConnected | game/board.py:83-106 | any 4-line of a piece on one of the four axes gives `count_connected(piece, 4) >= 1` |
| GameBoard.Connected | game/board.py:83-106 | the count `count_connected(p, len)` returns, block by block; `LineConnected` and `WinIsConnected` state what it sees |
| GameBoard.WinIsConnected | game/board.py:42-73 | a win found by `check_win(r, c)` is also seen by `count_connected(grid[r][c], 4)`, which is at least 1 |
| GameBoard.FeatureIndex | game/board.py:115-121 | the feature vector has `rows * columns + 1` entries, cell (r, c) at `r * columns + c`, then the player to move |
| GameBoard.FeatureCell | game/board.py:115-121 | cell (r, c) of the grid is entry `r * columns + c` of the feature vector |
| GameBoard.Drop | game/board.py:20-40 | a column out of range raises the invalid-column error, and a full column raises the full-column error. Otherwise exactly the largest empty cell of the column takes the mover's piece. The player to move is unchanged and the last move is recorded. A win sets the winner and ends the game; otherwise a full top row ends the game and the winner is kept |
| GameBoard.DropKeepsSettled | game/board.py:25-29 | a drop keeps a board without floating pieces free of floating pieces |
| GameBoard.Board.constructor | game/board.py:2-9 | a new board is empty, player 1 moves, with no last move, no winner and the game not over |
| GameBoard.Board.Copy | game/board.py:11-18 | the copy is a fresh object with equal grid and fields |
| GameBoard.Board.Walk | game/board.py:62-70 | the walk from the neighbour of (row, col) returns the run of `player` in direction (dr, dc) |
| GameBoard.Board.CheckWinAt | game/board.py:49-73 | with both coordinates given, the result is `WinAt` on the current grid |
| GameBoard.Board.CheckWin | game/board.py:42-73 | a missing coordinate falls back to the last move; without a last move the result is false; otherwise the result is `WinAt` at that cell |
| GameBoard.Board.GetLegalMoves | game/board.py:75-81 | the legal moves are exactly the columns `is_valid_move` accepts, in ascending order |
| GameBoard.Board.IsValidMove | game/board.py:75-77 | a column is valid when it is on the board and its top cell is empty; `GetLegalMoves` lists exactly these |
| GameBoard.Board.DropPiece | game/board.py:20-40 | on success the new state and the returned (row, column) are those of `Drop`; on either error nothing changes |
| GameBoard.Board.CountConnected | game/board.py:83-106 | the count equals `Connected`: the all-`player` lines of `length` cells over the four blocks of start cells |
| GameBoard.Board.CountBlock | game/board.py:87-105 | one nested loop counts the lines starting in its block of start cells |
| GameBoard.Board.SimulateMove | game/board.py:108-113 | the original is untouched; an error of the drop is the result, otherwise a fresh board holds the dropped state with the other player to move |
| GameBoard.Board.ToFeatureVector | game/board.py:115-121 | the features are the grid row by row followed by the player to move, `rows * columns + 1` values |
| GameRules.Evaluate | game/rules.py:10-16 | the score is 100 exactly when the player has won, -100 exactly when only the opponent has won, and 0 when neither has |
| GameRules.IsTerminal | game/rules.py:3-7 | over when either player has won or the board is full; `DecidedIsTerminal` and `OpenPositionScoresZero` relate it to the score |
| GameRules.EvaluateRange | game/rules.py:10-16 | the score is one of -100, 0, 100 |
| GameRules.EvaluateAntisymmetric | game/rules.py:10-16 | when at most one player has won, swapping the player negates the score |
| GameRules.DecidedIsTerminal | game/rules.py:3-16 | a non-zero score for player 1 or 2 means the game is terminal |
| GameRules.OpenPositionScoresZero | game/rules.py:3-16 | a position that is not terminal scores 0 for both players |
| SrcRules.Contents | src/game/rules.py:56-60 | the grid value of a 6 x 7 array, cell by cell |
| SrcRules.AvailableMoves | src/game/rules.py:28-33 | the columns whose top cell (row 5) is empty, in ascending order, or the integer -1 when there is none |
| SrcRules.OpenRowFrom | src/game/rules.py:74-78 | the first empty row at or above `r` in the column, or -1 |
| SrcRules.NextOpenRow | src/game/rules.py:74-78 | the lowest empty row of the column, with every lower cell filled, or -1 exactly when the column is full |
| SrcRules.GetNextOpenRow | src/game/rules.py:74-78 | the loop over the array returns `NextOpenRow` of its contents |
| SrcRules.IsValid | src/game/rules.py:95-99 | a column is valid exactly when it is in range and has an empty cell |
| SrcRules.ValidIffAvailable | src/game/rules.py:95-99 | on a board without floating pieces, `is_valid` accepts exactly the columns `available_moves` lists |
| SrcRules.DropPiece | src/game/rules.py:81-82 | only the cell at (row, col) changes, to `piece`; a negative index counts from the end as numpy does |
| SrcRules.Simulated | src/game/rules.py:56-60 | in a free column only its lowest empty cell changes, to `piece`; in a full column the row -1 wraps to the top row, which is overwritten |
| SrcRules.SimulateMove | src/game/rules.py:56-60 | a fresh array holds `Simulated` of the input, which is unchanged |
| SrcRules.SimulatedKeepsStacked | src/game/rules.py:56-60 | a move into a free column keeps pieces from floating |
| SrcRules.AnyInColumn | src/game/rules.py:106-131 | the inner row loop finds a 4-line of `piece` starting in its range of rows exactly when there is one |
| SrcRules.AnyInBlock | src/game/rules.py:106-131 | a whole nested loop finds a 4-line starting in its block exactly when there is one |
| SrcRules.WinningMoveIffFourInARow | src/game/rules.py:102-139 | `winning_move` holds exactly when some horizontal, vertical or diagonal 4-line on the board holds only `piece` |
| SrcRules.WinningMove | src/game/rules.py:102-139 | the four scans of `winning_move`, each over the start cells the source ranges over; `WinningMoveIffFourInARow` states their meaning |
| SrcRules.LineIsScanned | src/game/rules.py:102-139 | any 4-line of `piece` in any of the eight directions is found by the scan |
| SrcRules.ScannedForward | src/game/rules.py:102-139 | a 4-line in one of the four scanned directions is found by the scan |
| SrcRules.TieExcludesWin | src/game/rules.py:85-92 | a tied board has no 4-line for either piece and no available column |
| SrcRules.IsGameTied | src/game/rules.py:85-92 | tied when neither piece wins and no cell is empty; `TieExcludesWin` and `FullWithoutWinIsTie` state both directions |
| SrcRules.FullBoardHasNoMove | src/game/rules.py:28-33 | a board without an empty cell has no available or valid column |
| SrcRules.FullWithoutWinIsTie | src/game/rules.py:85-92 | a full board with no 4-line for either piece is tied |
| SegmentHeuristic.LegalActions | ai/aEstrela.py:12-14 | the columns 0..6 whose row-0 cell is empty, in ascending order (the same as ai/a_star.py:16-18) |
| SegmentHeuristic.Applied | ai/aEstrela.py:16-23 | the applied state is again a 6 x 7 grid |
| SegmentHeuristic.ApplyAction | ai/aEstrela.py:16-23 | the loop over rows 5 down to 0 returns `Applied`; the input list is a value and stays unchanged (also ai/a_star.py:20-27) |
| SegmentHeuristic.AppliedPlacesOnePiece | ai/aEstrela.py:16-23 | a free column gets `player` in its largest empty row, with every other cell unchanged; a full column gives an unchanged copy |
| SegmentHeuristic.AppliedOnlyAdds | ai/aEstrela.py:16-23 | applying a move only turns empty cells into `player` |
| SegmentHeuristic.OnlyAddsTransitive | ai/aEstrela.py:128-136 | a chain of expansions by the same player only adds that player's pieces |
| SegmentHeuristic.WinInRow | ai/aEstrela.py:30-45 | the inner column loop of `is_terminal` finds a win from some start cell of the row at or after `c` exactly when there is one |
| SegmentHeuristic.WinInRows | ai/aEstrela.py:29-45 | the outer row loop finds a win from some start cell at or after row `r` exactly when there is one |
| SegmentHeuristic.TerminalIffWinOrFull | ai/aEstrela.py:25-51 | `is_terminal` holds exactly when some nonzero piece has four in a row (horizontal, vertical or either diagonal) or row 0 is full (also ai/a_star.py:29-55) |
| SegmentHeuristic.IsTerminal | ai/aEstrela.py:25-51 | the fixed start-cell checks of `is_terminal` or a full top row; `TerminalIffWinOrFull` states their meaning |
| SegmentHeuristic.WinFromIsWinning | ai/aEstrela.py:31-45 | a win found from a start cell is a four-in-a-row of that cell's piece |
| SegmentHeuristic.WinningIsWinFrom | ai/aEstrela.py:29-45 | every four-in-a-row of a nonzero piece is found from one of the scanned start cells |
| SegmentHeuristic.BlockWins | ai/aEstrela.py:29-45 | a four-in-a-row in one direction's block of start cells is found by the scan |
| SegmentHeuristic.LineWins | ai/aEstrela.py:34-45 | a line of four from a start cell that passes its direction's bounds test is found |
| SegmentHeuristic.WinFromWins | ai/aEstrela.py:29-45 | a win from any start cell makes the scan succeed |
| SegmentHeuristic.CountsDisjoint | ai/aEstrela.py:81-82 | the own and opponent counts of a window add up to at most its length |
| SegmentHeuristic.SegmentTable | ai/aEstrela.py:79-103 | `k` own pieces and no opponent piece score 10^(k-1), that is 1, 10, 100 or 1000; the mirror case scores the negation; mixed and empty windows score 0 (also ai/a_star.py:93-114) |
| SegmentHeuristic.SegmentScore | ai/aEstrela.py:79-103 | the score table of `evaluate_segment`; `SegmentTable` and `SegmentAntisymmetric` state its shape |
| SegmentHeuristic.SegmentAntisymmetric | ai/aEstrela.py:79-103 | swapping player and opponent negates a window's score |
| SegmentHeuristic.FittingMembers | ai/aEstrela.py:60-75 | the kept windows are exactly those of the list that fit on the board |
| SegmentHeuristic.CellWindowsShape | ai/aEstrela.py:60-75 | the windows read at start cell (r, c) are, in order, horizontal if c <= 3, vertical if r <= 2, rising if both, falling if r >= 3 and c <= 3 |
| SegmentHeuristic.CellWindowsMembers | ai/aEstrela.py:60-75 | the windows read at a start cell are exactly the windows from that cell that fit on the board |
| SegmentHeuristic.WindowsUpToMembers | ai/aEstrela.py:58-75 | the windows read before (r, c) in row-major order are exactly the fitting windows that start earlier |
| SegmentHeuristic.WindowsAreAllOnBoard | ai/aEstrela.py:58-75 | `evaluate` reads exactly the windows that fit on the board, each once |
| SegmentHeuristic.OfDirectionAppend | ai/aEstrela.py:58-75 | counting the windows of one direction adds up over concatenation |
| SegmentHeuristic.CellDirections | ai/aEstrela.py:60-75 | each start cell contributes one window per passing bounds test |
| SegmentHeuristic.ExpectedStep | ai/aEstrela.py:58-59 | the closed-form window count grows by one start cell's windows per loop step |
| SegmentHeuristic.WindowsUpToCounts | ai/aEstrela.py:58-75 | the windows of each direction read before (q, m) match the closed-form count |
| SegmentHeuristic.CountsStep | ai/aEstrela.py:58-75 | one more start cell keeps the per-direction count in closed form |
| SegmentHeuristic.WindowsUpToLength | ai/aEstrela.py:58-75 | the number of windows read before (q, m) in closed form |
| SegmentHeuristic.WindowCounts | ai/aEstrela.py:53-77 | `evaluate` scores 69 windows: 24 horizontal, 21 vertical and 12 on each diagonal |
| SegmentHeuristic.Segment | ai/aEstrela.py:62-74 | a segment is the four cells of the window, from its start cell in its direction |
| SegmentHeuristic.AllOnBoard | ai/aEstrela.py:58-75 | every window `evaluate` reads lies on the board |
| SegmentHeuristic.SumScoresAppend | ai/aEstrela.py:55-77 | the running score adds up over concatenated window lists |
| SegmentHeuristic.SumScoresAntisymmetric | ai/aEstrela.py:79-103 | swapping the sides negates the sum over any list of windows |
| SegmentHeuristic.HeuristicAntisymmetric | ai/aEstrela.py:53-103 | swapping player and opponent negates `evaluate` (also ai/a_star.py:57-81) |
| SegmentHeuristic.SumScoresOfEmpty | ai/aEstrela.py:79-103 | on the empty board every window scores 0 |
| SegmentHeuristic.EmptyBoardScoresZero | ai/aEstrela.py:53-77 | the empty board scores 0 for either player |
| SegmentHeuristic.Evaluate | ai/aEstrela.py:53-77 | the nested loops return the sum of the window scores over the windows in row-major order |
| SegmentHeuristic.HeuristicScore | ai/aEstrela.py:53-77 | the sum of the window scores over every window on the board; `Evaluate` computes it and `HeuristicAntisymmetric` and `EmptyBoardScoresZero` state its properties |
| SegmentHeuristic.Score | ai/a_star.py:57-81 | the heuristic or the learned model's prediction on the flattened state, by the evaluator chosen; `EvaluateState` computes it |
| SegmentHeuristic.CellScores | ai/aEstrela.py:60-75 | the four `if`s of one iteration add the scores of that cell's windows |
| SegmentHeuristic.AddWindow | ai/aEstrela.py:62-63 | one `score += evaluate_segment(...)` extends the running sum by one window |
| SegmentHeuristic.PrefixStep | ai/aEstrela.py:58-75 | the sum up to the next start cell is the sum so far plus this cell's windows |
| SegmentHeuristic.CellOnBoard | ai/aEstrela.py:60-75 | the windows read at a cell lie on the board |
| SegmentHeuristic.PrefixOnBoard | ai/aEstrela.py:58-75 | the windows read before a cell lie on the board |
| SegmentHeuristic.StateToFeatureVector | ai/a_star.py:83-91 | the 42 cells row by row; cell (r, c) is entry 7r + c |
| SegmentFrontier.Replay | ai/aEstrela.py:128-131 | the state of a path is again a 6 x 7 grid |
| SegmentFrontier.ReplayOnlyAdds | ai/aEstrela.py:128-136 | every state on the frontier differs from the initial state only by `self.player` pieces in cells that were empty |
| SegmentFrontier.ExtendPath | ai/aEstrela.py:129-131 | extending a path by a legal action of its state keeps its first move legal, and the child's state is the action applied to the parent's state |
| SegmentFrontier.TrackSnoc | ai/aEstrela.py:120-126 | one more scored leaf updates the tracked best by the leaf rule |
| SegmentFrontier.TrackIsBest | ai/aEstrela.py:113-126 | the tracked score is absent only before any leaf; otherwise it is the greatest leaf score and some leaf has it; a tracked action is the first move of some leaf's path |
| SegmentFrontier.TrackIsFirstBest | ai/aEstrela.py:113-126 | when every leaf has a move, the tracked action is the first move of the first leaf with the greatest score: every earlier leaf scores strictly less |
| SegmentFrontier.TrackSetsAction | ai/aEstrela.py:122-125 | when no leaf has an empty path, some leaf sets `best_action` |
| SegmentFrontier.Root | ai/aEstrela.py:109-111 | the initial heap holds one entry: the initial state, an empty path, g = 0 and f = its evaluation; that entry satisfies the frontier invariant |
| SegmentFrontier.RootIsGood | ai/aEstrela.py:109-111 | the initial entry satisfies the frontier invariant |
| SegmentFrontier.LeastExists | ai/aEstrela.py:117 | a non-empty heap has an entry least by (f, g) |
| SegmentFrontier.WorkAppend | ai/aEstrela.py:116-136 | the work left on a frontier adds up over concatenation |
| SegmentFrontier.WorkRemove | ai/aEstrela.py:117 | popping an entry takes its weight off the work left |
| SegmentFrontier.WorkLevel | ai/aEstrela.py:129-136 | entries at the same level carry equal weights |
| SegmentFrontier.EvaluateState | ai/a_star.py:57-81 | the score is the window heuristic, or the learned model's prediction on the 42 features when a model is attached |
| SegmentFrontier.ChildIsGood | ai/aEstrela.py:129-136 | a pushed child has its state equal to its path replayed, g equal to its path length within the bound, and f = g + h |
| SegmentFrontier.Expand | ai/aEstrela.py:129-136 | one child per legal action of the popped state, in column order |
| SegmentFrontier.ChildrenAreGood | ai/aEstrela.py:129-136 | a popped entry below the bound and not terminal has at least one child; every child satisfies the invariant; and the children's work is less than the parent's |
| SegmentFrontier.AllGoodMembers | ai/aEstrela.py:116-136 | the recursive frontier invariant holds exactly when every entry satisfies it |
| SegmentFrontier.KeepGood | ai/aEstrela.py:117 | removing an entry keeps the rest of the frontier good |
| SegmentFrontier.JoinGood | ai/aEstrela.py:136 | pushing good children keeps the frontier good |
| SegmentFrontier.AllLeavesMembers | ai/aEstrela.py:120-126 | the recursive leaf invariant holds exactly when every scored leaf satisfies it |
| SegmentFrontier.AllLeavesSnoc | ai/aEstrela.py:120-126 | scoring a good leaf keeps all leaves good |
| SegmentFrontier.RecordLeaf | ai/aEstrela.py:121-126 | `best_score` and `best_action` after one leaf are `Record` of the old values: a strictly better score replaces the best, and a non-empty path sets the action |
| SegmentFrontier.LeafIsGood | ai/aEstrela.py:120-121 | an entry popped at the bound or at a terminal state is a leaf with a legal first move, a path within the bound, and its evaluation as score |
| SegmentFrontier.LeafBelowRoot | ai/aEstrela.py:120-131 | with a depth bound of at least 1 and a live initial state, no leaf has an empty path |
| SegmentSearch.Pop | ai/aEstrela.py:117 | the popped entry is least by (f, g); the rest is the frontier without it, still good, and the work left falls by its weight |
| SegmentSearch.PopIsGood | ai/aEstrela.py:117 | the popped entry and the rest of the frontier satisfy the invariant, and the work splits |
| SegmentSearch.ScoreLeaf | ai/aEstrela.py:120-126 | the popped entry becomes one more good leaf, and the tracked best is that of all leaves so far |
| SegmentSearch.Grow | ai/aEstrela.py:128-136 | expanding pushes at least one child, keeps the frontier good, and lowers the work left |
| SegmentSearch.Turn | ai/aEstrela.py:116-136 | one loop iteration keeps both invariants and strictly lowers the work left, which proves termination |
| SegmentSearch.Drain | ai/aEstrela.py:116-136 | the loop ends with at least one leaf; every leaf is good, and the tracked best is that of all leaves in pop order |
| SegmentSearch.Search | ai/aEstrela.py:105-139 | the answer is a legal column of the initial state; it is the tracked best action when one was set, which always happens with a bound of at least 1 and a live start, and then it is the first move of the first popped leaf with the greatest score (every earlier leaf scores strictly less); there is no answer exactly when no column is legal (also ai/a_star.py:116-146) |
| SrcAStar.CountFill | src/ai/a_star.py:23 | filling one empty cell of a row lowers its count of empty cells by one |
| SrcAStar.EmptiesFill | src/ai/a_star.py:23 | filling one empty cell of the board lowers the board's count of empty cells by one |
| SrcAStar.SimulatedFillsOne | src/ai/a_star.py:23-28 | a simulated move into a free column leaves one empty cell fewer, which is the measure the recursion decreases |
| SrcAStar.StillOpen | src/ai/a_star.py:18-28 | after a move from a board with two or more available columns, the opponent still has an available column |
| SrcAStar.SelectIsAColumn | src/ai/a_star.py:21-37 | the column the loop settles on is one of the available columns |
| SrcAStar.Select | src/ai/a_star.py:21-37 | the `for col in possible_moves` loop from position `i`: the first immediate win, otherwise the column of the first strictly greatest reply score; `SelectFirstWin` and `SelectFirstMaximum` state it |
| SrcAStar.SelectFirstWin | src/ai/a_star.py:25-26 | the first column that wins at once is returned |
| SrcAStar.SelectFirstMaximum | src/ai/a_star.py:33-37 | with no immediate win, the loop settles on the first column with the greatest score after the reply |
| SrcAStar.Choose | src/ai/a_star.py:8-41 | `a_star` fails exactly when `available_moves` gives -1 (the `len` of an integer raises); otherwise it answers an available column |
| SrcAStar.Wins | src/ai/a_star.py:23-26 | one win flag per available column |
| SrcAStar.Replies | src/ai/a_star.py:28-32 | one post-reply score per available column |
| SrcAStar.OnlyMoveIsChosen | src/ai/a_star.py:18-19 | with exactly one available column, that column is returned |
| SrcAStar.FirstWinIsChosen | src/ai/a_star.py:21-26 | if some column wins at once for `ai_piece`, the first such column is returned |
| SrcAStar.BestOutcomeIsChosen | src/ai/a_star.py:28-37 | otherwise the answer is the column whose score after the opponent's recursive reply is greatest, ties going to the earliest column |
| SrcAStar.SelectsFirstMaximum | src/ai/a_star.py:33-37 | the loop from its start state settles on the first maximum of the scores |
| SrcAStar.ChooseSelects | src/ai/a_star.py:21-41 | with two or more columns, `a_star` is the loop's selection over the win flags and scores |
| SrcAStar.NoneWins | src/ai/a_star.py:25 | no column winning at once means every win flag is false |
| SrcAStar.IsWon | src/ai/a_star.py:25 | `winning_move` on the array is four in a row on its contents |
| SrcAStar.TryColumn | src/ai/a_star.py:23-32 | one iteration on a copy: the win flag of the column, and otherwise its score after the reply; the input array is not changed |
| SrcAStar.AStar | src/ai/a_star.py:8-41 | the recursive method on the array returns `Choose` of its contents and never modifies the input |
| MctsArena.LegalMoves | ai/mcts.py:18 | a node's moves are exactly the columns whose top cell is empty, in ascending order (`get_legal_moves`) |
| MctsArena.LegalMoveDrops | ai/mcts.py:30-32 | dropping into a legal move never raises |
| MctsArena.FirstMax | ai/mcts.py:27 | the position `max` picks: no entry has a greater key, and every earlier entry has a smaller one |
| MctsArena.FirstMostVisited | ai/mcts.py:113 | the position `max(children, key=visits)` picks: no child has more visits, and every earlier child has strictly fewer |
| MctsArena.SumBump | ai/mcts.py:87 | one more visit of a node raises the children's visit sum by one exactly when the node is among them |
| MctsArena.SumExtend | ai/mcts.py:33-35 | a new node changes no visit sum over older nodes |
| MctsArena.MovesOf | ai/mcts.py:14 | the moves of a list of nodes, one per node |
| MctsArena.RemoveFirst | ai/mcts.py:34 | `list.remove(x)` leaves the multiset of the list without one `x`, one element shorter |
| MctsArena.IncreasingOnce | ai/mcts.py:18 | a value occurs at most once in the ascending list of legal moves |
| MctsArena.Alternate | ai/mcts.py:86-90 | the result credited at each step up stays in 0..2 half-wins |
| MctsArena.RateBound | ai/mcts.py:24 | a win rate with wins not above visits lies in [0, 1] |
| MctsArena.UctOf | ai/mcts.py:21-24 | the UCT value is infinite exactly when the node is unvisited; otherwise, with at most one win per visit, it is the exploration bonus plus a rate in [0, 1] |
| MctsArena.BestUct | ai/mcts.py:26-27 | the child `select_child` returns has no sibling with a greater UCT value, and every earlier sibling's is smaller |
| MctsArena.Bumped | ai/mcts.py:87 | the visit counts keep their length |
| MctsArena.BumpedOnPath | ai/mcts.py:86-90 | every node on the path to the root gains exactly one visit |
| MctsArena.Credited | ai/mcts.py:88 | the win counts keep their length |
| MctsArena.CreditedAlternates | ai/mcts.py:86-90 | the k-th node up from the rollout gains `result` when k is even and `1 - result` when k is odd; nodes off the path keep their wins |
| MctsArena.BumpedStep | ai/mcts.py:87-90 | one recursive call adds one visit at its node |
| MctsArena.CreditedStep | ai/mcts.py:88-90 | one recursive call adds the alternated result at its node |
| MctsArena.Ancestors | ai/mcts.py:89-90 | the recursion visits the node, then its parents, ending at the root |
| MctsArena.AncestorsLinked | ai/mcts.py:89-90 | that path strictly decreases in node number, follows the parent links and ends at the node without a parent, so the recursion terminates |
| MctsArena.IncreasingSnoc | ai/mcts.py:35 | appending the newest node keeps a children list in creation order |
| MctsArena.LinkedGrow | ai/mcts.py:33-35 | a new child of a node keeps parent and child links in agreement |
| MctsArena.ChildrenGrow | ai/mcts.py:33-35 | after a new child, every child still points back to its parent |
| MctsArena.TriedGrow | ai/mcts.py:29-35 | expanding through an untried move keeps each node's untried moves and children's moves together equal to its legal moves |
| MctsArena.TalliedGrow | ai/mcts.py:33-35 | a new unvisited child keeps the visit bookkeeping balanced |
| MctsArena.BumpStep | ai/mcts.py:87 | one more visit of the node that was one short balances it and makes its parent one short |
| MctsArena.Partition | ai/mcts.py:18-35 | the children's moves and the untried moves add up to the legal moves; children's moves are distinct, not untried and legal |
| MctsArena.RootInv | ai/mcts.py:10-19 | a fresh root with all its legal moves untried satisfies every tree invariant |
| MctsArena.UntriedDrops | ai/mcts.py:30-32 | an untried move is legal on its node's board, so the drop in `expand` succeeds |
| MctsArena.ExpandInv | ai/mcts.py:29-36 | growing a valid tree through an untried move gives a valid tree |
| MctsArena.ExpandedInv | ai/mcts.py:29-36 | the tree `expand` builds satisfies every invariant |
| MctsArena.RetalliedInv | ai/mcts.py:86-90 | new visit and win counts that still balance keep the tree valid |
| MctsArena.ClimbStep | ai/mcts.py:86-90 | one step of the recursion keeps the walk's state |
| MctsArena.PathNext | ai/mcts.py:86-90 | the node the recursion reaches has not been visited before on this walk, and its parent is the next node, or none at the root |
| MctsArena.CountStep | ai/mcts.py:86-90 | one step adds one visit and the alternated result at the next node and keeps wins at most visits |
| MctsArena.ClimbStart | ai/mcts.py:86 | the walk starts at the node with nothing credited |
| MctsArena.ClimbDone | ai/mcts.py:89-90 | past the root, the counts are one more visit and the alternated result on every node of the path, and they balance |
| MctsArena.Climb | ai/mcts.py:86-90 | the loop form of the recursion returns those visit and win counts |
| Mcts.Tree.constructor | ai/mcts.py:10-19 | the root holds the board, no parent, no move and no children, with visits 0, wins 0 and all legal moves untried |
| Mcts.Tree.MovesPartition | ai/mcts.py:18-36 | a node's children plus its untried moves number its legal moves; the children's moves are distinct, not untried and legal |
| Mcts.Tree.Uct | ai/mcts.py:21-24 | infinite exactly when the node is unvisited; otherwise the bonus plus a win rate in [0, 1] |
| Mcts.Tree.SelectChild | ai/mcts.py:26-27 | a child with no greater UCT value among its siblings, the first such |
| Mcts.Tree.Expand | ai/mcts.py:29-36 | some untried move is removed, and exactly one child is appended: it has that move, this node as parent, and the node's board with the move dropped |
| Mcts.Tree.Attach | ai/mcts.py:33-35 | the new child is appended with zero visits and wins and its board's legal moves untried |
| Mcts.Tree.Backpropagate | ai/mcts.py:86-90 | every node from `x` to the root gains one visit and the alternating result; nothing else changes |
| Mcts.Tree.BestMove | ai/mcts.py:113 | the move of the first root child with the most visits (every child has at most its visits, every earlier one strictly fewer); with no root child, `max` of an empty list raises |
| Mcts.Descend | ai/mcts.py:103-105 | the descent stops at a node with an untried move or without children |
| Mcts.ExpandStep | ai/mcts.py:107-108 | a node with untried moves is expanded; a root with a legal move gets a child |
| Mcts.Round | ai/mcts.py:102-111 | one round adds one root visit and keeps the tree valid; with a legal move the root has children |
| Mcts.Search | ai/mcts.py:100-111 | after the loop the root has `iterations` visits; with a legal move, its children's visits add up to `iterations` |
| Mcts.GetBestMove | ai/mcts.py:99-113 | the answer is a legal column of the board; there is none (max of an empty list raises) exactly when there are no iterations or no legal move |
| SrcMctsArena.CurrentPlayerOf | src/ai/mcts.py:17 | a node's player is 1 exactly when the last player was 2, and 2 otherwise |
| SrcMctsArena.PieceIsChildPlayer | src/ai/mcts.py:34-37 | the piece a child's board receives is its parent's opponent, the same as the child's `current_player`, and never the parent's own player |
| SrcMctsArena.Score | src/ai/mcts.py:56-60 | 0 for an unvisited node, otherwise the ratio wins/visits, which lies in [0, 1] when wins never exceed visits |
| SrcMctsArena.Ucb | src/ai/mcts.py:48-54 | infinite exactly for an unvisited node; otherwise the win ratio in [0, 1] plus the exploration bonus |
| SrcMctsArena.UcbKeys | src/ai/mcts.py:111-112 | one UCB key per child, in the order of the children list |
| SrcMctsArena.FirstMaxStep | src/ai/mcts.py:111-115 | one step of `best_child`'s loop: the best so far is replaced only by a strictly greater key |
| SrcMctsArena.FirstTrue | src/ai/mcts.py:73-76 | the first child whose check holds; no earlier child's does |
| SrcMctsArena.ChildWins | src/ai/mcts.py:75 | one flag per column: whether the column's simulated board is a win for piece 2 |
| SrcMctsArena.AncestorsClosed | src/ai/mcts.py:120-124 | the chain of parents walked by `back_propagation` contains each member's parent, up to the root |
| SrcMctsArena.RootInv | src/ai/mcts.py:11-17 | a fresh root with no children and zero counts satisfies every tree invariant |
| SrcMctsArena.AvailableColumns | src/game/rules.py:28-33 | every column `available_moves` lists is in range with an empty top cell |
| SrcMctsArena.GrownNone | src/ai/mcts.py:32 | adding the children of no columns leaves the tree as it was |
| SrcMctsArena.GrownStep | src/ai/mcts.py:32-40 | each pass of `add_children`'s loop appends exactly one child to the node's list |
| SrcMctsArena.GrownInv | src/ai/mcts.py:32-40 | adding children for playable columns to a node without children keeps every tree invariant |
| SrcMctsArena.GrownPlaced | src/ai/mcts.py:34-40 | every new child's column is playable on its parent's board, and its player alternates |
| SrcMctsArena.GrownLinked | src/ai/mcts.py:40 | every new child names its parent, and the parent lists it |
| SrcMctsArena.AddedInv | src/ai/mcts.py:27-40 | `add_children` keeps every invariant, changes no earlier node, and leaves a node that already has children untouched |
| SrcMctsArena.Added | src/ai/mcts.py:27-40 | `add_children` on node `i`: unchanged when it has children or no available move, otherwise grown by one child per available column; `AddedInv` and `AddedChildren` state the result |
| SrcMctsArena.AddedChildren | src/ai/mcts.py:29-40 | on a node without children and with available moves: one new child per available column, in order, holding the simulated board with the opponent's piece, the alternated player and zero counts |
| SrcMctsArena.GrownEntry | src/ai/mcts.py:34-40 | child `k` of a grown node is the new node numbered after the existing ones, linked to its parent, with the simulated board, the alternated player and zero counts |
| SrcMctsArena.AddedRoot | src/ai/mcts.py:27-30 | expanding any node keeps the root's board, and the root has children exactly when its board has available moves |
| SrcMctsArena.RootWins | src/ai/mcts.py:73-75 | one flag per root child: whether its board is a win for piece 2 |
| SrcMctsArena.AddedRootWins | src/ai/mcts.py:70-75 | after expanding the root, its children follow the available columns and their win flags are those of the simulated boards |
| SrcMctsArena.ScoredStep | src/ai/mcts.py:122-123 | one step up the path adds a win to a node exactly when its player is the result |
| SrcMctsArena.PropagatedInv | src/ai/mcts.py:118-124 | back-propagation keeps every tree invariant, in particular wins never exceed visits |
| SrcMctsArena.Propagated | src/ai/mcts.py:118-124 | `back_propagation(x, result)`: visits bumped and wins scored along the path from `x` to the root; `PropagatedInv` and `PropagatedCounts` state the result |
| SrcMctsArena.PropagatedCounts | src/ai/mcts.py:118-124 | every node on the path from the node to the root gains one visit, and one win exactly when its player is the result; no other node, board or link changes |
| SrcMctsArena.ClimbStep | src/ai/mcts.py:120-124 | one pass of the `while node` loop moves one node closer to the root and keeps the counts consistent |
| SrcMctsArena.Climb | src/ai/mcts.py:118-124 | the loop computes the visit and win counts of back-propagation |
| SrcMcts.Tree.constructor | src/ai/mcts.py:11-17 | a lone root holding the board, with the alternated player and zero counts |
| SrcMcts.Tree.Attach | src/ai/mcts.py:40 | appends one child node to a node's children list |
| SrcMcts.Tree.AttachAll | src/ai/mcts.py:32-40 | the `for col in ...` loop attaches one child per column, in order: the new state is the arena grown by those columns |
| SrcMcts.Tree.AddChildren | src/ai/mcts.py:27-40 | the tree after `add_children` is the expanded tree, and the invariants hold |
| SrcMcts.Tree.SelectChildren | src/ai/mcts.py:42-46 | all children when there are at most four, otherwise four distinct children |
| SrcMcts.Tree.BestChild | src/ai/mcts.py:107-116 | none exactly when the node has no children, otherwise the first child of greatest UCB |
| SrcMcts.Tree.Select | src/ai/mcts.py:99-105 | the node reached by following the best child until a node without children |
| SrcMcts.DescentLeaf | src/ai/mcts.py:99-105 | the node `select` reaches has no children and descends from the start node |
| SrcMcts.Tree.BackPropagation | src/ai/mcts.py:118-124 | the new tree is the back-propagated tree, and the invariants hold |
| SrcMcts.Tree.Expand | src/ai/mcts.py:126-129 | expands the node and returns all its children, or four distinct ones when it has more than four |
| SrcMcts.Tree.BestMove | src/ai/mcts.py:168-186 | an error (`random.choice` of nothing) exactly when the root has no children; otherwise a column of a root child whose score no other child exceeds |
| SrcMcts.Search | src/ai/mcts.py:84-97 | every iteration keeps the invariants and the root's board, and the root keeps children exactly when its board has available moves |
| SrcMcts.RollOut | src/ai/mcts.py:94-96 | back-propagating a rollout result for each selected node changes counts only, never the tree's shape |
| SrcMcts.TryChild | src/ai/mcts.py:73-79 | tells whether the root child's board is a win for piece 2, and otherwise runs its six rollouts |
| SrcMcts.PreSimulate | src/ai/mcts.py:73-79 | the column of the first root child whose board wins for piece 2, if any, with the tree's shape unchanged |
| SrcMcts.ExpandRoot | src/ai/mcts.py:70 | the root gets one child per available column, in order, and their win flags are those of the simulated boards |
| SrcMcts.Finish | src/ai/mcts.py:82-97 | an error exactly when the root board has no available moves, otherwise one of its available columns |
| SrcMcts.Start | src/ai/mcts.py:68-82 | an error exactly when no move is available; otherwise an available column, and the first immediately winning column when one exists |
| SrcMcts.Mcts | src/ai/mcts.py:190-196 | the same answer for a fresh root whose last player was 2 |
| DecisionData.Labels | ai/decision_tree.py:17 | the label column: one label per row, in row order |
| DecisionData.ModeIndex | src/ai/decision_tree.py:56-58 | the first position whose label is counted most often among the first positions; no earlier one is counted as often |
| DecisionData.FirstMode | src/ai/decision_tree.py:56-58 | `max(y, key=y.count)`: a most common label, and the first one in row order among the most common |
| DecisionData.PureIffAllEqual | src/ai/decision_tree.py:61-62 | a label column is pure exactly when it is non-empty and every label equals the first |
| DecisionData.SubsetSize | ai/decisision_tree.py:67-69 | a subset of a set has no more elements |
| DecisionData.Unique | src/ai/decision_tree.py:97 | the distinct values, each once, with exactly the values of the input |
| DecisionData.InsertKeepsOrder | ai/decision_tree.py:45 | inserting into an increasing list keeps it increasing and adds exactly the one value |
| DecisionData.SortedUniqueHas | ai/decision_tree.py:45 | `sorted(set(values))` is increasing and holds exactly the column's values |
| DecisionData.Values | ai/decision_tree.py:44 | the feature column: one value per row, in row order |
| DecisionData.AtMost | ai/decision_tree.py:48 | the left side of a threshold split is no longer than the rows |
| DecisionData.AtMostHas | ai/decision_tree.py:48 | the left side holds exactly the rows whose feature is at most the threshold |
| DecisionData.Above | ai/decision_tree.py:49 | the right side of a threshold split is no longer than the rows |
| DecisionData.AboveHas | ai/decision_tree.py:49 | the right side holds exactly the rows whose feature is above the threshold |
| DecisionData.ThresholdPartition | ai/decision_tree.py:48-49 | the two sides together are a permutation of the rows |
| DecisionData.Cells | src/ai/decision_tree.py:97-98 | the feature column of the multi-way trees: one value per row |
| DecisionData.Matching | src/ai/decision_tree.py:98 | the rows whose feature has a given value are no more than the rows |
| DecisionData.MatchingHas | src/ai/decision_tree.py:98 | the subset for a value holds exactly the rows whose feature has that value |
| DecisionData.Groups | src/ai/decision_tree.py:95-99 | one subset per distinct value of the feature |
| DecisionData.GroupSizesSnoc | ai/decisision_tree.py:103-111 | one more row adds one to the subsets' total size exactly when its value is among the keys |
| DecisionData.GroupSizesCover | ai/decisision_tree.py:103-111 | when every row's value is a key, the subsets' sizes add up to the number of rows |
| DecisionData.GroupSizesEmpty | ai/decisision_tree.py:103-111 | no rows make empty subsets |
| DecisionData.DiscretePartition | src/ai/decision_tree.py:95-99 | the keys are distinct; subset i holds exactly the rows whose value is key i; no subset is empty; the sizes add up to the number of rows |
| DecisionData.FirstBest | src/ai/decision_tree.py:65-83 | the position kept by a strict `>` scan, which holds a score |
| DecisionData.FirstBestIsFirstMax | src/ai/decision_tree.py:65-83 | none exactly when no position has a score; otherwise a greatest score, and every earlier score is strictly smaller |
| DecisionData.FirstBestSnoc | src/ai/decision_tree.py:79-81 | one more score replaces the best so far only when it is strictly greater |
| DecisionData.Modes | ai/decisision_tree.py:61-62 | the list of most common labels is never empty |
| DecisionData.ModesAreModes | ai/decisision_tree.py:61-62 | the list holds exactly the most common labels |
| DecisionData.TopCountIsMax | ai/decisision_tree.py:61 | the maximum count bounds the count of every label and is reached by one of them |
| DecisionData.ModesUpToKeeps | ai/decisision_tree.py:62 | the comprehension keeps exactly the labels counted the maximum number of times, each once |
| DecisionData.Choice | ai/decisision_tree.py:63 | `random.choice` of a non-empty list returns one of its members |
| ThresholdTree.LeafNode | ai/decision_tree.py:84-96 | an error for no labels, or for a numeric most common label among non-numeric labels (`sum` fails); otherwise a leaf counting the labels, holding the most common label, or the mean when that label is a number |
| ThresholdTree.Thresholds | ai/decision_tree.py:43-47 | every candidate of a feature names that feature |
| ThresholdTree.ThresholdsHave | ai/decision_tree.py:45-47 | every value of the feature is a candidate threshold |
| ThresholdTree.Candidates | ai/decision_tree.py:43-47 | every candidate names a feature in range |
| ThresholdTree.CandidatesHave | ai/decision_tree.py:43-47 | every (feature, value) pair is among the candidates |
| ThresholdTree.Scores | ai/decision_tree.py:51-53 | one optional gain per candidate |
| ThresholdTree.BestOfIsFirstMax | ai/decision_tree.py:39-65 | none exactly when no candidate splits both ways; otherwise the first candidate of greatest gain |
| ThresholdTree.BestOfSnoc | ai/decision_tree.py:55-63 | one more candidate replaces the best split only when its gain is strictly greater |
| ThresholdTree.Advance | ai/decision_tree.py:47-63 | one pass of the inner loop is one step of the scan |
| ThresholdTree.FindBestSplit | ai/decision_tree.py:39-65 | the loops compute the first split of greatest gain over all features and thresholds |
| ThresholdTree.ScanFeature | ai/decision_tree.py:44-63 | the inner loop over one feature's thresholds extends the scan by that feature's candidates |
| ThresholdTree.SplitIffVaried | ai/decision_tree.py:47-51 | some candidate splits both ways exactly when some feature takes two different values |
| ThresholdTree.SplitVaries | ai/decision_tree.py:51 | a candidate that splits both ways has a row at or below and a row above its threshold |
| ThresholdTree.LowestSplits | ai/decision_tree.py:47-51 | a value below another value of the same feature splits both ways |
| ThresholdTree.Sides | ai/decision_tree.py:48-49 | both sides keep the rows' width, and their sizes add up |
| ThresholdTree.SplitOnlyWhen | ai/decision_tree.py:19-37 | a split node is built only below the depth limit, with enough samples, impure labels and a best split of positive gain, and it tests that split |
| ThresholdTree.BuildTree | ai/decision_tree.py:16-37 | `_build_tree`: a leaf at the depth bound, on too few rows or pure labels, or when the best gain is not positive; a `KeyError` when no candidate splits; otherwise a split; `SplitOnlyWhen`, `BuiltSplit` and `BuiltLeaf` state its cases |
| ThresholdTree.NoSplitRaises | ai/decision_tree.py:24-26 | when splitting is allowed but no feature varies, `best_split` is empty and the build fails with `KeyError` |
| ThresholdTree.BuiltSplit | ai/decision_tree.py:29-37 | a split node's subtrees are built from the two sides, each strictly smaller, at the next depth |
| ThresholdTree.BuiltLeaf | ai/decision_tree.py:22-27 | a built leaf counts all its rows |
| ThresholdTree.HeightBound | ai/decision_tree.py:19 | with a depth limit, the tree is no taller than the limit minus the starting depth |
| ThresholdTree.SamplesAddUp | ai/decision_tree.py:16-37 | the leaves' sample counts add up to the number of rows |
| ThresholdTree.TestsDatasetFeatures | ai/decision_tree.py:32-36 | every split tests a feature of the dataset |
| ThresholdTree.PredictIsLeafClass | ai/decision_tree.py:101-107 | prediction on a tree testing features in range succeeds, with the class of one of its leaves |
| ThresholdTree.Predict | ai/decision_tree.py:101-107 | `_predict_single`: a leaf's class, or the left subtree at or below the threshold and the right one above; `PredictIsLeafClass` states the result |
| ThresholdTree.BuiltTreePredicts | ai/decision_tree.py:98-107 | a built tree predicts, for any row of the right width, the class of one of its leaves |
| MultiwayTree.FirstIndex | ai/decisision_tree.py:167-169 | the first split value equal to the row's value, or past the end when none is |
| MultiwayTree.WalkSound | src/ai/decision_tree.py:127-134 | prediction in a well-formed tree never fails, and any label it returns is one of the training labels |
| MultiwayTree.Walk | ai/decisision_tree.py:158-171 | `make_prediction`: a leaf gives its label, a branch follows the first key equal to the row's value, and no match gives `None`; `WalkSound` and `WalkFollowsUniqueKey` state it |
| MultiwayTree.WalkGivesLabel | src/ai/decision_tree.py:127-134 | prediction in a well-formed tree built from rows succeeds, and any label it returns is a label of those rows |
| MultiwayTree.WalkFollowsUniqueKey | ai/decisision_tree.py:167-169 | when a key equals the row's value, prediction follows that child |
| MultiwayTree.LabelsWithin | src/ai/decision_tree.py:98 | a subset of the rows has no labels the rows lack |
| MultiwayTree.GroupWithin | src/ai/decision_tree.py:95-99 | every subset of a discrete split is non-empty and has no labels the rows lack |
| MultiwayTree.MatchingAll | src/ai/decision_tree.py:98 | when every row has the value, its subset is all the rows |
| MultiwayTree.OnlyValue | src/ai/decision_tree.py:97 | a constant feature has exactly one distinct value |
| MultiwayTree.ConstantFeatureGainsNothing | src/ai/decision_tree.py:102-104 | a feature with one value has gain exactly zero |
| MultiwayTree.WholeWeight | src/ai/decision_tree.py:103 | one subset holding all the rows weighs exactly the rows' impurity |
| DictTree.Gains | src/ai/decision_tree.py:70-76 | one gain per feature, that feature's discrete gain |
| DictTree.BestFeature | src/ai/decision_tree.py:65-83 | the chosen feature is in range |
| DictTree.BestFeatureIsFirstMax | src/ai/decision_tree.py:65-83 | none exactly when there are no features (the search starts at minus infinity); otherwise the first feature of greatest gain |
| DictTree.GetBestSplit | src/ai/decision_tree.py:65-83 | the loop computes the first feature of greatest gain |
| DictTree.LeafOf | src/ai/decision_tree.py:51-58 | an error exactly for no rows; otherwise a leaf holding a most common label |
| DictTree.BuildKids | src/ai/decision_tree.py:45-48 | a successful build has one child per subset |
| DictTree.Build | src/ai/decision_tree.py:36-53 | `_build_tree`: a split on the best feature, with one child per value, while the node has enough rows, is within the depth bound, is impure and gains something; otherwise a leaf; `BuildSound`, `SplitOnlyWhen` and `LeafOtherwise` state it |
| DictTree.KidsArePointwise | src/ai/decision_tree.py:45-48 | the children are built for all subsets, in order, and the build fails exactly when one of them fails |
| DictTree.BuildSound | src/ai/decision_tree.py:36-53 | on rows and at least one feature the build succeeds, and the tree is well formed, no taller than the depth allows, with only training labels |
| DictTree.BranchSound | src/ai/decision_tree.py:44-49 | a branch on a feature builds all its children and is well formed |
| DictTree.KidsBranchSound | src/ai/decision_tree.py:44-49 | children built from non-empty subsets with distinct keys succeed and make a well-formed branch |
| DictTree.BuildKidsSound | src/ai/decision_tree.py:45-48 | children built from non-empty subsets succeed and are well formed |
| DictTree.SplitOnlyWhen | src/ai/decision_tree.py:42-49 | a branch only with enough samples, depth at most the limit, impure labels and positive gain of the first best feature; its keys are that feature's distinct values, one child each |
| DictTree.LeafOtherwise | src/ai/decision_tree.py:42-53 | with no features a permitted split fails with `KeyError`; a refused split is the leaf; any leaf holds the first most common label |
| DictTree.MakePrediction | src/ai/decision_tree.py:127-134 | the loop computes the walk down the tree, none for an unseen value |
| DictTree.PredictsTrainingLabel | src/ai/decision_tree.py:123-134 | a tree built from rows predicts, for any row of the right width, none or one of the training labels |
| ListTree.LeafValue | ai/decisision_tree.py:58-63 | an error exactly for no labels; otherwise one of the most common labels |
| ListTree.AnyModeMayBeDrawn | ai/decisision_tree_connect4.py:63-65 | every most common label is drawn for some outcome of the random choice |
| ListTree.PositiveGains | ai/decisision_tree.py:80-86 | per feature, its gain when strictly positive and nothing otherwise |
| ListTree.BestPositive | ai/decisision_tree.py:73-87 | the chosen feature is in range |
| ListTree.BestPositiveIsFirstMax | ai/decisision_tree.py:73-87 | none exactly when no gain is positive; otherwise the first feature of greatest gain, which is positive |
| ListTree.UpdateBestSplit | ai/decisision_tree.py:91-99 | the new maximum is the larger of the two; the best split changes only to this feature, and only when its gain is strictly greater |
| ListTree.UpdateIsSnoc | ai/decisision_tree.py:80-99 | one more feature updates the best split and its gain exactly as the first positive maximum over one more feature |
| ListTree.GetBestSplit | ai/decisision_tree.py:73-87 | the loop computes the first feature of greatest positive gain |
| ListTree.LeafOf | ai/decisision_tree.py:45 | an error exactly for no rows; otherwise a leaf holding a most common label |
| ListTree.BuildKids | ai/decisision_tree.py:51-53 | a successful build has one child per subset |
| ListTree.Build | ai/decisision_tree.py:38-54 | `_build_tree`: a leaf on too few rows, at the depth limit, on pure labels or when no feature gains anything; otherwise a node on the best feature with one child per value; `BuildSound` and `LeafIffStop` state it |
| ListTree.KidsArePointwise | ai/decisision_tree.py:51-53 | the children are built for all subsets, in order, and the build fails exactly when one of them fails |
| ListTree.SoundKids | ai/decisision_tree.py:51-53 | children built from non-empty subsets succeed, one per subset, each well formed |
| ListTree.SoundTree | ai/decisision_tree.py:38-54 | on rows the build succeeds with a well-formed tree over the rows' labels |
| ListTree.BuildSound | ai/decisision_tree.py:38-54 | on rows the build succeeds, and the tree is well formed, no taller than the depth limit, with only training labels |
| ListTree.BranchSound | ai/decisision_tree.py:51-54 | a branch on a feature builds all its children and is well formed |
| ListTree.KidsBranchSound | ai/decisision_tree.py:51-54 | children built from non-empty subsets with distinct keys succeed and make a well-formed branch |
| ListTree.BuildKidsSound | ai/decisision_tree_connect4.py:53-55 | children built from non-empty subsets succeed and are well formed |
| ListTree.LeafIffStop | ai/decisision_tree.py:44-54 | on rows the node is a leaf exactly when a stop condition holds or no gain is positive; a leaf holds a most common label; a branch tests the first best feature, keyed by its distinct values |
| ListTree.PredictsTrainingLabel | ai/decisision_tree.py:152-171 | a tree built from rows predicts, for any row of the right width, none or one of the training labels |
| TreePlay.PrefersCandidate | ai/decisision_tree.py:281-285 | a preferred column drawn from groups of candidates is a candidate |
| TreePlay.Choose | ai/decisision_tree.py:282 | `random.choice` of a non-empty list returns a member |
| TreePlay.Draw | src/ai/decision_tree.py:218-225 | nothing exactly when all groups and the fallback are empty; otherwise a member of the first non-empty group, or of the fallback |
| TreePlay.Tagged | src/ai/decision_tree.py:211-215 | the plays with a given prediction are plays |
| TreePlay.GroupedIsTagged | src/ai/decision_tree.py:211-215 | the prediction dict has a key exactly when some play has that prediction, and maps it to those plays in order |
| TreePlay.DictPlay | src/ai/decision_tree.py:199-225 | an error exactly when there are no plays; otherwise a play predicted to win if any, else to draw, else to lose, else any play |
| TreePlay.SymbolRoundTrip | ai/decisision_tree.py:291 | decoding the symbol of a cell gives the cell back |
| TreePlay.MapBoardToRow | ai/decisision_tree.py:287-292 | one symbol per cell of the flattened board, decoding to that cell |
| TreePlay.BoardRowIndex | ai/decisision_tree_connect4.py:227 | the row has 42 symbols, and cell (r, c) is at position 7r + c |
| TreePlay.Initialize | ai/decisision_tree.py:185-192 | an error exactly when the mode is neither iris nor connect4; otherwise the model of that mode |
| TreePlay.Tier | ai/decisision_tree.py:267-278 | the columns of one predicted outcome are available columns |
| TreePlay.Prediction | ai/decisision_tree.py:267-270 | the tree's prediction for the board after the AI piece drops in the column; `AllPredictSnoc` and `SortedStopsAtError` state how it is used |
| TreePlay.Sorted | ai/decisision_tree.py:267-278 | the loss, draw and win groups after the columns in order, or the first error; `SortedIffAllPredict` and `SortedIsTiers` state it |
| TreePlay.AllPredictSnoc | ai/decisision_tree.py:267-270 | every column predicts exactly when every earlier column predicts and the last one does |
| TreePlay.SortedIffAllPredict | ai/decisision_tree.py:267-278 | sorting succeeds exactly when every column's prediction succeeds |
| TreePlay.SortedIsTiers | ai/decisision_tree.py:267-278 | a successful sort yields the columns predicted loss, draw and win, each in column order |
| TreePlay.SortedStopsAtError | ai/decisision_tree.py:267-270 | the first failing prediction is the sort's error |
| TreePlay.SortMoves | ai/decisision_tree.py:262-278 | the loop sorts the columns into the three outcome groups, failing exactly when a prediction fails |
| TreePlay.AvailableList | ai/decisision_tree.py:262 | a list of available columns is never empty and lists playable columns |
| TreePlay.Play | ai/decisision_tree.py:249-285 | `RuntimeError` when not in connect4 mode; success exactly when a column is available and every prediction succeeds; then an available column predicted loss if any, else draw, else win, else any |
| TreePlay.DrawnFromTiers | ai/decisision_tree.py:280-285 | the drawn column is an available column, taken from the first non-empty group of the columns predicted loss, draw and win, and from all available columns when every group is empty |
| TreePlay.SoundModelPlays | ai/decisision_tree.py:262-270 | a well-formed model over the 42 cells on a board with a free column lets every prediction succeed |
| TreePlay.PlayConnect4 | ai/decisision_tree_connect4.py:191-222 | success exactly when a column is available and every prediction succeeds; none exactly when no prediction is loss, draw or win; otherwise an available column of the first non-empty group |

## Left out

- Screens, command-line front ends, statistics, dataset generation and
  training scripts are outside the engine and are not modelled; nor is the
  joblib loading and saving of trained trees or the CSV files they are
  trained on. A tree is a parameter of the players.
- Floating point: entropy, Gini impurity, UCT/UCB exploration terms and the
  learned evaluator are abstract function parameters. Information gain is
  computed exactly over reals from the abstract impurity.
- Randomness (`random.choice`, `random.sample`, the weighted rollout
  choice) is nondeterministic: each contract holds for every draw, and no
  distribution is modelled.
- Wall-clock time: the time-bounded search loop of `src/ai/mcts.py` runs a
  given number of iterations instead, and `mcts` takes that number.
- Rollouts are nondeterministic. In `ai/mcts.py` a rollout is any result
  in half-wins (0, 1, 2 for 0, 0.5, 1), credited alternately up the path.
  In `src/ai/mcts.py` it is the winner's piece (1 or 2), or 0 for a tie,
  and a node gains one whole win when its `current_player` equals it.
  The heuristic of `src/ai/mcts.py` and of `src/ai/a_star.py`
  (`ai.heuristic`) is not part of this model.
- `print` output and the debug `__str__` of the nodes are not modelled.
- `predict_iris`, `predict_connect4_move` and the `fit`/`predict` list
  wrappers are not modelled; prediction is modelled on one row at a time.
- Rows are sequences of cells, not DataFrames; a missing cell reads as an
  empty string.
- GameBoard.Board.constructor: requires at least one row, which every
  board of the repository has.
- GameBoard.Board.CheckWin: explicit coordinates must lie on the board;
  the `IndexError` or negative-index wrap of `self.grid[row][col]` off the
  board is not modelled, and the only caller passes no coordinates.
- GameBoard.Board.CheckWinAt: the same on-board requirement as `CheckWin`.
- ListTree.LeafValue: one draw function (`Pick`) serves the whole build, so two leaves
  with the same candidate labels draw the same one, where `random.choice`
  draws anew at each leaf; every contract about a leaf holds for any draw.
- ThresholdTree.BuildTree: feature values are integers, where the iris columns are
  floats; only `<=` is applied to them, so the order of the splits and
  the sides are the same.
- SegmentSearch.Search: proves only the first move of each path legal, not
  every move; the heap's tie-break on states and paths is not modelled: a
  pop may take any entry least by (f, g).
- SrcAStar.Choose: the score is an integer function, so the `-inf`
  initial score is always beaten and the `-1` answer for no scored column
  cannot arise; the hint print is left out.
- SrcMcts.Start: requires a root without children, as `mcts` always
  creates one.
- SrcMcts.Search: the number of rounds replaces the time budget.
- DictTree.Build: `max_depth` and `min_samples_split` are numbers; their
  default `None` would make the comparisons raise `TypeError` and is not
  modelled.
- ListTree.Build: `max_depth` is a number; with `None` the depth test
  never holds, and that unbounded tree is not modelled.

## Code and design

- `ai/decisision_tree.py` and `ai/decisision_tree_connect4.py` import
  `game.rules`, whose `game/rules.py` has no `available_moves` or
  `simulate_move`. The players use those of `src/game/rules.py`
  (`SrcRules.AvailableMoves`, `SrcRules.Simulated`).
- The `play` of `src/ai/decision_tree.py` calls `get_possible_plays`,
  `make_play` and `to_dict`, which no rules module defines, and reads
  constants `WIN`, `DRAW`, `LOSS` and `PLAYER1` from an unseen module. The
  plays, their predictions and the three outcome labels are parameters of
  `TreePlay.DictPlay`.
- `MCTSNode.simulate` of `ai/mcts.py` calls `is_winning_move`,
  `evaluate_position` and `to_feature_vector` with an argument, none of
  which `game/board.py` defines, and passes a two-argument function to
  `max`; a drawn game leaves the winner `None`, so the result 0.5 is never
  produced as written. Rollouts are modelled as any result in 0..2
  half-wins.
- `drop_piece` of `game/board.py` never changes `current_player`, so in
  `ai/mcts.py` every node's board, at any depth, gets the same player's
  pieces; the tree search is modelled as written: a child's board is
  `GameBoard.Drop` of its parent's, which keeps `current_player`.
- In `ai/decisision_tree_connect4.py`, `play` has no last fallback and
  answers `None` when no prediction is loss, draw or win
  (`TreePlay.PlayConnect4`).
- `available_moves` of `src/game/rules.py` answers the integer -1 on a
  full board; callers that iterate over it or take its length raise, which
  the models return as errors.
