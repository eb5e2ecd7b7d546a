/** The node arena of the Monte Carlo tree search of src/ai/mcts.py, on
    values: node `i` is entry `i` of every sequence (its board, parent,
    column, children, visits, wins and current player).  Node 0 is the
    root and a child always has a larger index than its parent.  Boards
    are the 6 x 7 boards of src/game/rules.py.  This module states what a
    valid arena is, what `add_children` and `back_propagation` do to one,
    and proves that they keep it valid; module `SrcMcts` holds the tree
    object that updates it in place. */
module SrcMctsArena {
  import opened Outcomes
  import opened Grids
  import opened SrcRules
  import MctsArena

  /** `Node.current_player` of a node created with `last_player`. */
  function CurrentPlayerOf(lastPlayer: int): (p: int)
    ensures p == PLAYER1_PIECE || p == PLAYER2_PIECE
    ensures p == PLAYER1_PIECE <==> lastPlayer == PLAYER2_PIECE
  {
    if lastPlayer == PLAYER2_PIECE then PLAYER1_PIECE else PLAYER2_PIECE
  }

  /** The piece `add_children` drops for a node whose current player is
      `current`. */
  function PieceFor(current: int): (piece: int)
  {
    if current != PLAYER2_PIECE then PLAYER2_PIECE else PLAYER1_PIECE
  }

  /** The piece dropped into a child is the child's own current player
      (its `last_player` is the parent's current player), and it is never
      the parent's current player when that is a piece. */
  lemma PieceIsChildPlayer(current: int)
    ensures PieceFor(current) == CurrentPlayerOf(current)
    ensures current == PLAYER1_PIECE || current == PLAYER2_PIECE ==> PieceFor(current) != current
  {
  }

  /** `Node.score()`: 0 for an unvisited node, its win rate otherwise. */
  function Score(wins: nat, visits: nat): (s: real)
    ensures visits == 0 ==> s == 0.0
    ensures visits > 0 ==> s * visits as real == wins as real
    ensures wins <= visits ==> 0.0 <= s <= 1.0
  {
    if visits == 0 then 0.0
    else
      if wins <= visits then MctsArena.RateBound(wins, visits); wins as real / visits as real
      else wins as real / visits as real
  }

  /** The exploration term of `Node.ucb()`: `bonus(parentVisits, visits)`
      stands for `sqrt(2) * sqrt(2 * log(parentVisits / visits))`, and the
      root, without a parent, has none. */
  function Exploration(parentVisits: Option<nat>, visits: nat, bonus: (nat, nat) -> real): real
  {
    if parentVisits.Some? then bonus(parentVisits.value, visits) else 0.0
  }

  /** `Node.ucb()`: `inf` for an unvisited node, otherwise its win rate
      plus the exploration term. */
  function Ucb(wins: nat, visits: nat, parentVisits: Option<nat>, bonus: (nat, nat) -> real): (u: MctsArena.Key)
    ensures u == MctsArena.Infinite <==> visits == 0
    ensures u.Finite? && wins <= visits ==> 0.0 <= u.x - Exploration(parentVisits, visits, bonus) <= 1.0
  {
    if visits == 0 then MctsArena.Infinite
    else MctsArena.Finite(Score(wins, visits) + Exploration(parentVisits, visits, bonus))
  }

  /** The keys `best_child` compares for the children `cs` of a node with
      `parentVisits` visits: their UCB values, in order. */
  function UcbKeys(cs: seq<nat>, wins: seq<nat>, visits: seq<nat>, parentVisits: nat,
                   bonus: (nat, nat) -> real): (keys: seq<MctsArena.Key>)
    requires forall k :: 0 <= k < |cs| ==> cs[k] < |wins| && cs[k] < |visits|
    ensures |keys| == |cs|
    ensures forall k :: 0 <= k < |cs| ==> keys[k] == Ucb(wins[cs[k]], visits[cs[k]], Some(parentVisits), bonus)
  {
    seq(|cs|, k requires 0 <= k < |cs| => Ucb(wins[cs[k]], visits[cs[k]], Some(parentVisits), bonus))
  }

  /** One more step of the `max` scan of `best_child`. */
  lemma FirstMaxStep(keys: seq<MctsArena.Key>, j: nat)
    requires 0 < j < |keys|
    ensures var k := MctsArena.FirstMax(keys[..j]);
      MctsArena.FirstMax(keys[..j + 1]) == if MctsArena.Above(keys[j], keys[k]) then j else k
  {
    assert keys[..j + 1][..j] == keys[..j];
  }

  /** The position of the first `true` in `bs`, or `|bs|`. */
  function FirstTrue(bs: seq<bool>): (k: nat)
    ensures k <= |bs|
    ensures forall j :: 0 <= j < k ==> !bs[j]
    ensures k < |bs| ==> bs[k]
  {
    if bs == [] || bs[0] then 0 else 1 + FirstTrue(bs[1..])
  }

  /** For each column of `cols`, whether the child board (the board `g`
      with `piece` dropped there) is a win for piece 2. */
  function ChildWins(g: Grid, piece: int, cols: seq<int>): (bs: seq<bool>)
    requires IsBoard(g) && forall x :: x in cols ==> 0 <= x < COLUMNS
    ensures |bs| == |cols|
    ensures forall j :: 0 <= j < |cols| ==>
      0 <= cols[j] < COLUMNS && bs[j] == WinningMove(Simulated(g, piece, cols[j]), PLAYER2_PIECE)
  {
    assert forall j :: 0 <= j < |cols| ==> cols[j] in cols;
    seq(|cols|, j requires 0 <= j < |cols| => WinningMove(Simulated(g, piece, cols[j]), PLAYER2_PIECE))
  }

  /** The nodes from `r` up to the root are closed under taking parents. */
  lemma {:induction false} AncestorsClosed(parent: seq<Option<nat>>, r: nat, c: nat)
    requires Rooted(parent) && r < |parent|
    requires c in MctsArena.Ancestors(parent, r) && c != 0
    ensures parent[c].value in MctsArena.Ancestors(parent, r)
    decreases r
  {
    if r != c {
      AncestorsClosed(parent, parent[r].value, c);
    }
  }

  /** The fields of all nodes, as one value. */
  datatype Arena = Arena(board: seq<Grid>, parent: seq<Option<nat>>, column: seq<Option<int>>,
                         children: seq<seq<nat>>, visits: seq<nat>, wins: seq<nat>, player: seq<int>)

  /** The root has no parent; every other node has a parent created before
      it, so following parents always ends at the root. */
  predicate Rooted(parent: seq<Option<nat>>)
  {
    && |parent| >= 1 && parent[0] == None
    && forall c :: 0 < c < |parent| ==> parent[c].Some? && parent[c].value < c
  }

  /** A node's children have it as their parent and are listed in creation
      order. */
  predicate Linked(parent: seq<Option<nat>>, children: seq<seq<nat>>)
  {
    && |children| == |parent|
    && (forall i, k :: 0 <= i < |children| && 0 <= k < |children[i]| ==>
          0 < children[i][k] < |parent| && parent[children[i][k]] == Some(i))
    && (forall i :: 0 <= i < |children| ==> Increasing(children[i]))
  }

  /** Every board is a 6 x 7 board; every node but the root is tagged with a
      column that was free on its parent's board, and its current player
      follows from its parent's (`last_player` is the parent's current
      player). */
  predicate Placed(board: seq<Grid>, parent: seq<Option<nat>>, column: seq<Option<int>>, player: seq<int>)
    requires |board| == |parent| == |column| == |player| && Rooted(parent)
  {
    && (forall j :: 0 <= j < |board| ==> IsBoard(board[j]))
    && column[0] == None
    && forall c :: 0 < c < |board| ==>
         && column[c].Some? && 0 <= column[c].value < COLUMNS
         && board[parent[c].value][TOP][column[c].value] == 0
         && player[c] == CurrentPlayerOf(player[parent[c].value])
  }

  /** No node has more wins than visits. */
  predicate Bounded(wins: seq<nat>, visits: seq<nat>)
  {
    |wins| == |visits| && forall j :: 0 <= j < |wins| ==> wins[j] <= visits[j]
  }

  /** All invariants of a tree. */
  ghost predicate Inv(a: Arena)
  {
    && |a.board| == |a.parent| == |a.column| == |a.children| == |a.visits| == |a.wins| == |a.player| >= 1
    && Rooted(a.parent)
    && Linked(a.parent, a.children)
    && Placed(a.board, a.parent, a.column, a.player)
    && Bounded(a.wins, a.visits)
  }

  /** A lone root is a valid tree. */
  lemma RootInv(b: Grid, lastPlayer: int)
    requires IsBoard(b)
    ensures Inv(Arena([b], [None], [None], [[]], [0], [0], [CurrentPlayerOf(lastPlayer)]))
  {
  }

  // ---------------------------------------------------------------------
  // add_children

  /** The nodes `from`, `from + 1`, ... , `from + n - 1`. */
  function Range(from: nat, n: nat): (r: seq<nat>)
    ensures |r| == n && forall k :: 0 <= k < n ==> r[k] == from + k
  {
    seq(n, k => from + k)
  }

  /** The arena after node `i` gained one child per column of `cols`, in
      order: child `k` is node `|board| + k`, tagged with `cols[k]`, holding
      the board of `i` with the piece for `i`'s current player dropped into
      `cols[k]`, unvisited and without children, with `i`'s current player
      as its last player. */
  function Grown(a: Arena, i: nat, cols: seq<int>): (b: Arena)
    requires i < |a.board| && i < |a.children| && i < |a.player| && IsBoard(a.board[i])
    requires forall k :: 0 <= k < |cols| ==> 0 <= cols[k] < COLUMNS
  {
    var n := |a.board|;
    var piece := PieceFor(a.player[i]);
    Arena(a.board + seq(|cols|, k requires 0 <= k < |cols| => Simulated(a.board[i], piece, cols[k])),
          a.parent + seq(|cols|, _ => Some(i)),
          a.column + seq(|cols|, k requires 0 <= k < |cols| => Some(cols[k])),
          a.children[i := a.children[i] + Range(n, |cols|)] + seq(|cols|, _ => []),
          a.visits + seq(|cols|, _ => 0),
          a.wins + seq(|cols|, _ => 0),
          a.player + seq(|cols|, _ => CurrentPlayerOf(a.player[i])))
  }

  /** The arena after node `i` gained the child through column `col`. */
  function Appended(a: Arena, i: nat, col: int): (b: Arena)
    requires i < |a.board| && i < |a.children| && i < |a.player| && IsBoard(a.board[i])
    requires 0 <= col < COLUMNS
  {
    var nb := Simulated(a.board[i], PieceFor(a.player[i]), col);
    Arena(a.board + [nb], a.parent + [Some(i)], a.column + [Some(col)],
          a.children[i := a.children[i] + [|a.board|]] + [[]],
          a.visits + [0], a.wins + [0], a.player + [CurrentPlayerOf(a.player[i])])
  }

  /** The columns `available_moves` lists are on the board and free. */
  lemma AvailableColumns(g: Grid)
    requires IsBoard(g) && AvailableMoves(g).Columns?
    ensures var cols := AvailableMoves(g).cols;
      forall k :: 0 <= k < |cols| ==> 0 <= cols[k] < COLUMNS && g[TOP][cols[k]] == 0
  {
    var cols := AvailableMoves(g).cols;
    assert forall k :: 0 <= k < |cols| ==> cols[k] in cols;
  }

  /** What `add_children` does to node `i`: nothing when it has children or
      `available_moves` is -1, otherwise one child per available column. */
  function Added(a: Arena, i: nat): (b: Arena)
    requires Inv(a) && i < |a.board|
  {
    var moves := AvailableMoves(a.board[i]);
    if a.children[i] != [] || moves == MinusOne then a
    else
      AvailableColumns(a.board[i]);
      Grown(a, i, moves.cols)
  }

  /** Growing by no column changes nothing. */
  lemma GrownNone(a: Arena, i: nat)
    requires i < |a.board| && i < |a.children| && i < |a.player| && IsBoard(a.board[i])
    ensures Grown(a, i, []) == a
  {
    assert Range(|a.board|, 0) == [] && a.children[i] + [] == a.children[i];
    assert a.children[i := a.children[i]] == a.children;
  }

  /** Growing by one more column appends that column's child. */
  lemma GrownStep(a: Arena, i: nat, cols: seq<int>, k: nat)
    requires |a.board| == |a.children| == |a.player| && i < |a.board| && IsBoard(a.board[i])
    requires forall j :: 0 <= j < |cols| ==> 0 <= cols[j] < COLUMNS
    requires k < |cols|
    ensures var g := Grown(a, i, cols[..k]);
      i < |g.board| && IsBoard(g.board[i]) && g.player[i] == a.player[i]
      && Appended(g, i, cols[k]) == Grown(a, i, cols[..k + 1])
  {
    var g := Grown(a, i, cols[..k]);
    var h := Grown(a, i, cols[..k + 1]);
    var e := Appended(g, i, cols[k]);
    var n := |a.board|;
    assert e.board == h.board;
    assert e.parent == h.parent;
    assert e.column == h.column;
    assert e.children[i] == h.children[i];
    assert e.children == h.children;
    assert e.visits == h.visits && e.wins == h.wins;
    assert e.player == h.player;
  }

  /** Growing a valid tree at node `i` by columns that are free on its
      board gives a valid tree. */
  lemma GrownInv(a: Arena, i: nat, cols: seq<int>)
    requires Inv(a) && i < |a.board|
    requires forall k :: 0 <= k < |cols| ==> 0 <= cols[k] < COLUMNS && a.board[i][TOP][cols[k]] == 0
    requires a.children[i] == []
    ensures Inv(Grown(a, i, cols))
  {
    var b := Grown(a, i, cols);
    assert Rooted(b.parent);
    GrownPlaced(a, i, cols);
    GrownLinked(a, i, cols);
  }

  /** The new children are placed in free columns of their parent `i`. */
  lemma GrownPlaced(a: Arena, i: nat, cols: seq<int>)
    requires Inv(a) && i < |a.board|
    requires forall k :: 0 <= k < |cols| ==> 0 <= cols[k] < COLUMNS && a.board[i][TOP][cols[k]] == 0
    ensures var b := Grown(a, i, cols);
      Rooted(b.parent) && Placed(b.board, b.parent, b.column, b.player)
  {
    var b := Grown(a, i, cols);
    var n := |a.board|;
    assert forall c :: 0 <= c < n ==>
      b.board[c] == a.board[c] && b.parent[c] == a.parent[c] && b.column[c] == a.column[c] && b.player[c] == a.player[c];
    assert forall c :: n <= c < |b.board| ==>
      b.parent[c] == Some(i) && b.column[c] == Some(cols[c - n]) && b.player[c] == CurrentPlayerOf(a.player[i]);
  }

  /** The new children are linked to node `i`, after its (no) earlier ones. */
  lemma GrownLinked(a: Arena, i: nat, cols: seq<int>)
    requires Inv(a) && i < |a.board| && a.children[i] == []
    requires forall k :: 0 <= k < |cols| ==> 0 <= cols[k] < COLUMNS
    ensures var b := Grown(a, i, cols); Linked(b.parent, b.children)
  {
    var b := Grown(a, i, cols);
    var n := |a.board|;
    forall j, k | 0 <= j < |b.children| && 0 <= k < |b.children[j]|
      ensures 0 < b.children[j][k] < |b.parent| && b.parent[b.children[j][k]] == Some(j)
    {
      if j != i {
        assert j < n && b.children[j] == a.children[j];
        assert b.parent[b.children[j][k]] == a.parent[a.children[j][k]];
      }
    }
  }

  /** `add_children` keeps a tree valid and never removes or changes an
      existing node: the old nodes keep their board, parent, column,
      counts and current player, and only node `i` may gain children. */
  lemma AddedInv(a: Arena, i: nat)
    requires Inv(a) && i < |a.board|
    ensures var b := Added(a, i);
      && Inv(b) && |b.board| >= |a.board|
      && b.board[..|a.board|] == a.board && b.parent[..|a.board|] == a.parent
      && b.column[..|a.board|] == a.column && b.player[..|a.board|] == a.player
      && b.visits[..|a.board|] == a.visits && b.wins[..|a.board|] == a.wins
      && (forall j :: 0 <= j < |a.board| && j != i ==> b.children[j] == a.children[j])
      && (a.children[i] != [] ==> b.children[i] == a.children[i])
  {
    var moves := AvailableMoves(a.board[i]);
    if a.children[i] == [] && moves != MinusOne {
      AvailableColumns(a.board[i]);
      GrownInv(a, i, moves.cols);
    }
  }

  /** The children `add_children` creates, read off the tree: with no child
      yet and an available column, node `i` gets exactly one child per
      available column, in ascending column order, each tagged with its
      column and holding the board of `i` with the piece for `i`'s current
      player dropped into that column. */
  lemma AddedChildren(a: Arena, i: nat)
    requires Inv(a) && i < |a.board|
    requires a.children[i] == [] && AvailableMoves(a.board[i]).Columns?
    ensures var cols := AvailableMoves(a.board[i]).cols;
      forall k :: 0 <= k < |cols| ==> 0 <= cols[k] < COLUMNS && a.board[i][TOP][cols[k]] == 0
    ensures var b := Added(a, i); var cols := AvailableMoves(a.board[i]).cols;
      && |b.children[i]| == |cols|
      && forall k :: 0 <= k < |cols| ==>
           var c := b.children[i][k];
           && c < |b.board| && b.column[c] == Some(cols[k]) && b.parent[c] == Some(i)
           && b.board[c] == Simulated(a.board[i], PieceFor(a.player[i]), cols[k])
           && b.player[c] == CurrentPlayerOf(a.player[i])
           && b.visits[c] == 0 && b.wins[c] == 0 && b.children[c] == []
  {
    AvailableColumns(a.board[i]);
    var cols := AvailableMoves(a.board[i]).cols;
    assert Added(a, i) == Grown(a, i, cols);
    forall k | 0 <= k < |cols|
      ensures var b := Grown(a, i, cols); var c := b.children[i][k];
        && |b.children[i]| == |cols|
        && c < |b.board| && b.column[c] == Some(cols[k]) && b.parent[c] == Some(i)
        && b.board[c] == Simulated(a.board[i], PieceFor(a.player[i]), cols[k])
        && b.player[c] == CurrentPlayerOf(a.player[i])
        && b.visits[c] == 0 && b.wins[c] == 0 && b.children[c] == []
    {
      GrownEntry(a, i, cols, k);
    }
  }

  /** Child `k` of node `i` after growing by `cols` is node `|board| + k`,
      with the fields `add_children` gives it. */
  lemma GrownEntry(a: Arena, i: nat, cols: seq<int>, k: nat)
    requires Inv(a) && i < |a.board| && a.children[i] == []
    requires forall j :: 0 <= j < |cols| ==> 0 <= cols[j] < COLUMNS
    requires k < |cols|
    ensures var b := Grown(a, i, cols); var c := b.children[i][k];
      && |b.children[i]| == |cols| && c == |a.board| + k
      && c < |b.board| && b.column[c] == Some(cols[k]) && b.parent[c] == Some(i)
      && b.board[c] == Simulated(a.board[i], PieceFor(a.player[i]), cols[k])
      && b.player[c] == CurrentPlayerOf(a.player[i])
      && b.visits[c] == 0 && b.wins[c] == 0 && b.children[c] == []
  {
    var b := Grown(a, i, cols);
    assert b.children[i] == Range(|a.board|, |cols|);
  }

  /** `add_children` keeps the root's board, and the root has children
      exactly when its board has an available column, before and after. */
  lemma AddedRoot(a: Arena, i: nat)
    requires Inv(a) && i < |a.board|
    requires a.children[0] != [] <==> AvailableMoves(a.board[0]).Columns?
    ensures var b := Added(a, i);
      b.board[0] == a.board[0] && (b.children[0] != [] <==> AvailableMoves(b.board[0]).Columns?)
  {
    AddedInv(a, i);
  }

  /** For each root child in order, whether its board is a win for piece 2
      (the test `start` makes before any rollout). */
  ghost function RootWins(a: Arena): (bs: seq<bool>)
    requires Inv(a)
    ensures |bs| == |a.children[0]|
    ensures forall j :: 0 <= j < |bs| ==> bs[j] == WinningMove(a.board[a.children[0][j]], PLAYER2_PIECE)
  {
    seq(|a.children[0]|, j requires 0 <= j < |a.children[0]| => WinningMove(a.board[a.children[0][j]], PLAYER2_PIECE))
  }

  /** Right after `add_children` on a childless root, the root children's
      win tests are those of the available columns, in order. */
  lemma AddedRootWins(a: Arena)
    requires Inv(a) && a.children[0] == [] && AvailableMoves(a.board[0]).Columns?
    ensures var cols := AvailableMoves(a.board[0]).cols; var b := Added(a, 0);
      && Inv(b) && |b.children[0]| == |cols|
      && (forall j :: 0 <= j < |cols| ==> b.column[b.children[0][j]] == Some(cols[j]))
      && RootWins(b) == ChildWins(a.board[0], PieceFor(a.player[0]), cols)
  {
    AddedInv(a, 0);
    AddedChildren(a, 0);
  }

  // ---------------------------------------------------------------------
  // back_propagation

  /** The win counts after every node of `path` whose current player is
      `result` gained a win. */
  function Scored(wins: seq<nat>, player: seq<int>, path: seq<nat>, result: int): (w: seq<nat>)
    requires |player| == |wins|
    ensures |w| == |wins|
  {
    seq(|wins|, j requires 0 <= j < |wins| =>
      wins[j] + if j in path && player[j] == result then 1 else 0)
  }

  /** Extending a prefix of a path without repetition by its next node
      adds that node's win when its current player is `result`. */
  lemma ScoredStep(wins: seq<nat>, player: seq<int>, path: seq<nat>, result: int, k: nat)
    requires |player| == |wins| && k < |path| && path[k] < |wins| && path[k] !in path[..k]
    ensures var w := Scored(wins, player, path[..k], result); var v := path[k];
      Scored(wins, player, path[..k + 1], result)
        == w[v := w[v] + if player[v] == result then 1 else 0]
  {
    assert path[..k + 1] == path[..k] + [path[k]];
  }

  /** What `back_propagation(x, result)` does: every node from `x` up to
      the root gains a visit, and those whose current player is `result`
      gain a win. */
  ghost function Propagated(a: Arena, x: nat, result: int): (b: Arena)
    requires Inv(a) && x < |a.board|
  {
    var path := MctsArena.Ancestors(a.parent, x);
    a.(visits := MctsArena.Bumped(a.visits, path), wins := Scored(a.wins, a.player, path, result))
  }

  /** `back_propagation` keeps a tree valid: a node gains a win only with a
      visit, so wins never exceed visits. */
  lemma PropagatedInv(a: Arena, x: nat, result: int)
    requires Inv(a) && x < |a.board|
    ensures Inv(Propagated(a, x, result))
  {
  }

  /** The root, and every node from `x` up, gains exactly one visit; a node
      gains a win exactly when it is on that path and its current player
      is `result`; nothing else changes. */
  lemma PropagatedCounts(a: Arena, x: nat, result: int)
    requires Inv(a) && x < |a.board|
    ensures var b := Propagated(a, x, result); var path := MctsArena.Ancestors(a.parent, x);
      && x in path && 0 in path
      && (forall j :: 0 <= j < |a.visits| ==> b.visits[j] == a.visits[j] + if j in path then 1 else 0)
      && (forall j :: 0 <= j < |a.wins| ==>
            b.wins[j] == a.wins[j] + if j in path && a.player[j] == result then 1 else 0)
      && b.board == a.board && b.parent == a.parent && b.children == a.children
  {
    var path := MctsArena.Ancestors(a.parent, x);
    assert path[0] == x && path[|path| - 1] == 0;
  }

  /** The walk of `back_propagation` after its first `k` nodes: they have
      their visit and win, and `node` is the next one (if any). */
  ghost predicate Climbed(a: Arena, x: nat, result: int, k: nat, node: Option<nat>, vs: seq<nat>, ws: seq<nat>)
    requires Inv(a) && x < |a.board|
  {
    var path := MctsArena.Ancestors(a.parent, x);
    && k <= |path| && (node.Some? <==> k < |path|)
    && (node.Some? ==> node.value == path[k])
    && vs == MctsArena.Bumped(a.visits, path[..k])
    && ws == Scored(a.wins, a.player, path[..k], result)
  }

  /** One step of the walk of `back_propagation` keeps `Climbed`. */
  lemma ClimbStep(a: Arena, x: nat, result: int, k: nat, node: Option<nat>, vs: seq<nat>, ws: seq<nat>)
    requires Inv(a) && x < |a.board|
    requires Climbed(a, x, result, k, node, vs, ws) && node.Some?
    ensures var v := node.value;
      && v < |vs| == |ws| == |a.parent|
      && Climbed(a, x, result, k + 1, a.parent[v], vs[v := vs[v] + 1],
                 ws[v := ws[v] + if a.player[v] == result then 1 else 0])
  {
    var path := MctsArena.Ancestors(a.parent, x);
    MctsArena.AncestorsLinked(a.parent, x);
    var v := node.value;
    assert v !in path[..k] by {
      forall i | 0 <= i < k ensures path[i] != v { }
    }
    MctsArena.BumpedStep(a.visits, path, k);
    ScoredStep(a.wins, a.player, path, result, k);
    assert k + 1 < |path| ==> a.parent[v] == Some(path[k + 1]);
  }

  /** The walk of `back_propagation` from node `x` up the parent links, on
      the counts: each node gains a visit, and a win when its current
      player is `result`. */
  method Climb(ghost a: Arena, parent: seq<Option<nat>>, visits: seq<nat>, wins: seq<nat>, player: seq<int>,
               x: nat, result: int)
    returns (vs: seq<nat>, ws: seq<nat>)
    requires Inv(a) && x < |a.board|
    requires parent == a.parent && visits == a.visits && wins == a.wins && player == a.player
    ensures vs == Propagated(a, x, result).visits && ws == Propagated(a, x, result).wins
  {
    ghost var path := MctsArena.Ancestors(parent, x);
    vs, ws := visits, wins;
    var node: Option<nat> := Some(x);
    ghost var k := 0;
    assert path[..0] == [];
    while node.Some?
      invariant Climbed(a, x, result, k, node, vs, ws)
      decreases |path| - k
    {
      var v := node.value;
      ClimbStep(a, x, result, k, node, vs, ws);
      vs := vs[v := vs[v] + 1];
      if player[v] == result {
        ws := ws[v := ws[v] + 1];
      }
      node := parent[v];
      k := k + 1;
    }
    assert path[..k] == path;
  }
}
