/** The static rules of game/rules.py: whether a position is over, and its
    three-valued score for one player.  The board is any type `B`; the two
    board queries the rules rely on (`check_winner(player)` and `is_full()`)
    are parameters, since the class that would provide them is not part of
    this model. */
module GameRules {
  /** `GameRules.is_terminal`: a player has won or the board is full. */
  predicate IsTerminal<B>(checkWinner: (B, int) -> bool, isFull: B -> bool, board: B)
  {
    checkWinner(board, 1) || checkWinner(board, 2) || isFull(board)
  }

  /** `GameRules.evaluate`: 100 for a win of `player`, -100 for a win of
      the other player, 0 otherwise. */
  function Evaluate<B>(checkWinner: (B, int) -> bool, board: B, player: int): (v: int)
    ensures v == 100 <==> checkWinner(board, player)
    ensures v == -100 <==> !checkWinner(board, player) && checkWinner(board, 3 - player)
    ensures v == 0 <==> !checkWinner(board, player) && !checkWinner(board, 3 - player)
  {
    if checkWinner(board, player) then 100
    else if checkWinner(board, 3 - player) then -100
    else 0
  }

  /** The score takes only three values. */
  lemma EvaluateRange<B>(checkWinner: (B, int) -> bool, board: B, player: int)
    ensures Evaluate(checkWinner, board, player) in {-100, 0, 100}
  {
  }

  /** Zero-sum: with at most one winner, the two players' scores are
      opposite.  (With two winners both scores are 100.) */
  lemma EvaluateAntisymmetric<B>(checkWinner: (B, int) -> bool, board: B, player: int)
    requires !(checkWinner(board, player) && checkWinner(board, 3 - player))
    ensures Evaluate(checkWinner, board, player) == -Evaluate(checkWinner, board, 3 - player)
  {
    assert 3 - (3 - player) == player;
  }

  /** A decided score for player 1 or 2 means the position is terminal. */
  lemma DecidedIsTerminal<B>(checkWinner: (B, int) -> bool, isFull: B -> bool, board: B, player: int)
    requires player == 1 || player == 2
    requires Evaluate(checkWinner, board, player) != 0
    ensures IsTerminal(checkWinner, isFull, board)
  {
  }

  /** A position that is not terminal scores 0 for both players. */
  lemma OpenPositionScoresZero<B>(checkWinner: (B, int) -> bool, isFull: B -> bool, board: B)
    requires !IsTerminal(checkWinner, isFull, board)
    ensures Evaluate(checkWinner, board, 1) == 0 && Evaluate(checkWinner, board, 2) == 0
  {
  }
}
