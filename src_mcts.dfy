/** The tree of the Monte Carlo tree search of src/ai/mcts.py as an object
    whose fields are updated in place: entry `i` of each field belongs to
    node `i` (a `Node` of the source), node 0 being the root.  The
    `MCTS` operations are methods over the tree; rollouts are left
    abstract (any result 0, 1 or 2) and the time budget of `search` is an
    iteration count. */
module SrcMcts {
  import opened Outcomes
  import opened Grids
  import opened SrcRules
  import opened SrcMctsArena
  import MctsArena

  class Tree {
    /** `node.board` */
    var board: seq<Grid>
    /** `node.parent` */
    var parent: seq<Option<nat>>
    /** the column a node is paired with in its parent's `children` */
    var column: seq<Option<int>>
    /** `node.children`, as node numbers */
    var children: seq<seq<nat>>
    /** `node.visits` */
    var visits: seq<nat>
    /** `node.wins` */
    var wins: seq<nat>
    /** `node.current_player` */
    var currentPlayer: seq<int>

    ghost function State(): Arena
      reads this
    {
      Arena(board, parent, column, children, visits, wins, currentPlayer)
    }

    ghost predicate Valid()
      reads this
    {
      Inv(State())
    }

    /** Everything but the visit and win counts. */
    ghost function Shape(): (seq<Grid>, seq<Option<nat>>, seq<Option<int>>, seq<seq<nat>>, seq<int>)
      reads this
    {
      (board, parent, column, children, currentPlayer)
    }

    function Size(): nat
      reads this
    {
      |board|
    }

    /** `Node(board, last_player)` as the root of a new tree. */
    constructor (b: Grid, lastPlayer: int)
      requires IsBoard(b)
      ensures Valid()
      ensures State() == Arena([b], [None], [None], [[]], [0], [0], [CurrentPlayerOf(lastPlayer)])
    {
      board, parent, column, children := [b], [None], [None], [[]];
      visits, wins, currentPlayer := [0], [0], [CurrentPlayerOf(lastPlayer)];
      RootInv(b, lastPlayer);
    }

    /** Appends to node `i` the child through column `col`. */
    method Attach(i: nat, col: int)
      requires i < |board| && i < |children| && i < |currentPlayer| && IsBoard(board[i]) && 0 <= col < COLUMNS
      modifies this
      ensures State() == Appended(old(State()), i, col)
    {
      var nb := Simulated(board[i], PieceFor(currentPlayer[i]), col);
      board, parent, column := board + [nb], parent + [Some(i)], column + [Some(col)];
      children := children[i := children[i] + [|board| - 1]] + [[]];
      visits, wins, currentPlayer := visits + [0], wins + [0], currentPlayer + [CurrentPlayerOf(currentPlayer[i])];
    }

    /** `add_children()` of node `i` (see `Added`, `AddedChildren`,
        `AddedInv`). */
    method AddChildren(i: nat)
      requires Valid() && i < Size()
      modifies this
      ensures Valid() && State() == Added(old(State()), i)
    {
      var moves := AvailableMoves(board[i]);
      if children[i] != [] || moves == MinusOne {
        return;
      }
      ghost var a := State();
      AvailableColumns(board[i]);
      var cols := moves.cols;
      AttachAll(i, cols);
      GrownInv(a, i, cols);
    }

    /** The `for col in moves` loop of `add_children`: one child of node
        `i` per column, in order. */
    method AttachAll(i: nat, cols: seq<int>)
      requires |board| == |children| == |currentPlayer| && i < |board| && IsBoard(board[i])
      requires forall k :: 0 <= k < |cols| ==> 0 <= cols[k] < COLUMNS
      modifies this
      ensures State() == Grown(old(State()), i, cols)
    {
      ghost var a := State();
      GrownNone(a, i);
      for k := 0 to |cols|
        invariant State() == Grown(a, i, cols[..k])
      {
        GrownStep(a, i, cols, k);
        Attach(i, cols[k]);
      }
      assert cols[..|cols|] == cols;
    }

    /** `select_children()` of node `i`: all its children when it has at
        most four, otherwise four distinct ones of them picked at random. */
    method SelectChildren(i: nat) returns (s: seq<nat>)
      requires Valid() && i < Size()
      ensures |children[i]| <= 4 ==> s == children[i]
      ensures |children[i]| > 4 ==>
        |s| == 4 && MctsArena.Distinct(s) && forall x :: x in s ==> x in children[i]
    {
      var cs := children[i];
      if |cs| > 4 {
        assert Increasing(cs);
        ghost var w := cs[..4];
        assert |w| == 4 && MctsArena.Distinct(w) && forall x :: x in w ==> x in cs;
        s :| |s| == 4 && MctsArena.Distinct(s) && forall x :: x in s ==> x in cs;
      } else {
        s := cs;
      }
    }

    /** `best_child(node)` for node `i`: the first child of greatest UCB
        value (`MctsArena.FirstMax`), or `None` when it has no child. */
    method BestChild(i: nat, bonus: (nat, nat) -> real) returns (c: Option<nat>)
      requires Valid() && i < Size()
      ensures c.None? <==> children[i] == []
      ensures c.Some? ==>
        c.value == children[i][MctsArena.FirstMax(UcbKeys(children[i], wins, visits, visits[i], bonus))]
    {
      var cs, ws, vs := children[i], wins, visits;
      ghost var keys := UcbKeys(cs, ws, vs, vs[i], bonus);
      c := None;
      var bestScore: Option<MctsArena.Key> := None;
      ghost var best := 0;
      for j := 0 to |cs|
        invariant c.None? <==> j == 0
        invariant bestScore.None? <==> j == 0
        invariant j > 0 ==>
          best == MctsArena.FirstMax(keys[..j]) && c == Some(cs[best]) && bestScore == Some(keys[best])
      {
        var u := Ucb(ws[cs[j]], vs[cs[j]], Some(vs[i]), bonus);
        assert keys[j] == u;
        if j > 0 {
          FirstMaxStep(keys, j);
        }
        if bestScore.None? || MctsArena.Above(u, bestScore.value) {
          c, bestScore, best := Some(cs[j]), Some(u), j;
        }
      }
      assert keys[..|cs|] == keys;
    }

    /** The node `select` reaches from `x`: `x` itself when it has no child,
        otherwise the node reached from its first child of greatest UCB
        value. */
    ghost function Descent(x: nat, bonus: (nat, nat) -> real): (r: nat)
      reads this
      requires Valid() && x < Size()
      decreases Size() - x
    {
      if children[x] == [] then x
      else
        var c := children[x][MctsArena.FirstMax(UcbKeys(children[x], wins, visits, visits[x], bonus))];
        assert parent[c] == Some(x);
        Descent(c, bonus)
    }

    /** `select(node)` from node `x`, by recursion as in the source. */
    method Select(x: nat, bonus: (nat, nat) -> real) returns (r: nat)
      requires Valid() && x < Size()
      ensures r == Descent(x, bonus)
      decreases Size() - x
    {
      if children[x] == [] {
        r := x;
      } else {
        var c := BestChild(x, bonus);
        assert parent[c.value] == Some(x);
        r := Select(c.value, bonus);
      }
    }

    /** `back_propagation(node, result)` from node `x` (see `Propagated`,
        `PropagatedCounts`, `PropagatedInv`). */
    method BackPropagation(x: nat, result: int)
      requires Valid() && x < Size()
      modifies this
      ensures Valid() && State() == Propagated(old(State()), x, result)
    {
      PropagatedInv(State(), x, result);
      var vs, ws := Climb(State(), parent, visits, wins, currentPlayer, x, result);
      visits, wins := vs, ws;
    }

    /** `expand(node)` of node `i`: add its children, then select some. */
    method Expand(i: nat) returns (s: seq<nat>)
      requires Valid() && i < Size()
      modifies this
      ensures Valid() && State() == Added(old(State()), i)
      ensures |children[i]| <= 4 ==> s == children[i]
      ensures |children[i]| > 4 ==>
        |s| == 4 && MctsArena.Distinct(s) && forall x :: x in s ==> x in children[i]
    {
      AddChildren(i);
      s := SelectChildren(i);
    }

    /** `best_move()`: the column of a root child of greatest score, picked
        at random among the columns of equal greatest score; `k` is that
        child's position.  With no root child `random.choice([])` raises. */
    method BestMove() returns (r: Result<int, string>, ghost k: nat)
      requires Valid()
      ensures r.Err? <==> children[0] == []
      ensures r.Ok? ==>
        && k < |children[0]| && column[children[0][k]] == Some(r.value)
        && forall j :: 0 <= j < |children[0]| ==>
             Score(wins[children[0][j]], visits[children[0][j]]) <= Score(wins[children[0][k]], visits[children[0][k]])
    {
      var cs, ws, vs := children[0], wins, visits;
      ghost var scores := seq(|cs|, j requires 0 <= j < |cs| => Score(ws[cs[j]], vs[cs[j]]));
      var maxScore: Option<real> := None;
      ghost var best := 0;
      for j := 0 to |cs|
        invariant maxScore.None? <==> j == 0
        invariant j > 0 ==> best < j && maxScore == Some(scores[best])
        invariant forall m :: 0 <= m < j ==> scores[m] <= scores[best]
      {
        var score := Score(wins[cs[j]], visits[cs[j]]);
        if maxScore.None? || score > maxScore.value {
          maxScore, best := Some(score), j;
        }
      }
      var columns: seq<int> := [];
      ghost var from: seq<nat> := [];
      for j := 0 to |cs|
        invariant |from| == |columns|
        invariant forall q :: 0 <= q < |columns| ==>
          from[q] < |cs| && column[cs[from[q]]] == Some(columns[q]) && Some(scores[from[q]]) == maxScore
        invariant best < j ==> columns != []
      {
        var score := Score(wins[cs[j]], visits[cs[j]]);
        if Some(score) == maxScore {
          columns, from := columns + [column[cs[j]].value], from + [j];
        }
      }
      if columns == [] {
        return Err("IndexError: cannot choose from an empty sequence"), 0;
      }
      var q :| 0 <= q < |columns|;
      r, k := Ok(columns[q]), from[q];
      assert scores[k] == scores[best];
      forall j | 0 <= j < |cs|
        ensures Score(wins[cs[j]], visits[cs[j]]) <= Score(wins[cs[k]], visits[cs[k]])
      {
        assert scores[j] <= scores[best];
      }
    }
  }

  /** The root has children exactly when its board has an available move. */
  ghost predicate RootReady(t: Tree)
    reads t
    requires t.Valid()
  {
    t.children[0] != [] <==> AvailableMoves(t.board[0]).Columns?
  }

  /** `search`, with its time budget as `iterations` rounds: select from the
      root; roll out an unvisited node, otherwise expand it and roll out
      each selected child.  The root keeps its board and has children
      exactly when a move is available. */
  method Search(t: Tree, iterations: nat, bonus: (nat, nat) -> real)
    requires t.Valid() && RootReady(t)
    modifies t
    ensures t.Valid() && RootReady(t) && t.board[0] == old(t.board[0])
  {
    for round := 0 to iterations
      invariant t.Valid() && RootReady(t) && t.board[0] == old(t.board[0])
    {
      var node := t.Select(0, bonus);
      DescentLeaf(t, 0, bonus);
      if t.visits[node] == 0 {
        var result: int :| 0 <= result <= 2;
        t.BackPropagation(node, result);
      } else {
        AddedRoot(t.State(), node);
        var selected := t.Expand(node);
        RollOut(t, selected);
      }
    }
  }

  /** Rolls out and backpropagates once from each node of `selected`. */
  method RollOut(t: Tree, selected: seq<nat>)
    requires t.Valid() && forall x :: x in selected ==> x < t.Size()
    modifies t
    ensures t.Valid() && t.Shape() == old(t.Shape())
  {
    for j := 0 to |selected|
      invariant t.Valid() && t.Shape() == old(t.Shape())
    {
      assert selected[j] in selected;
      var result: int :| 0 <= result <= 2;
      t.BackPropagation(selected[j], result);
    }
  }

  /** `select` ends at a node of the tree without children, below the node
      it started from: that node is on the parent path of the result. */
  lemma {:induction false} DescentLeaf(t: Tree, x: nat, bonus: (nat, nat) -> real)
    requires t.Valid() && x < t.Size()
    ensures var r := t.Descent(x, bonus);
      r < t.Size() && t.children[r] == [] && x in MctsArena.Ancestors(t.parent, r)
    decreases t.Size() - x
  {
    if t.children[x] != [] {
      var c := t.children[x][MctsArena.FirstMax(UcbKeys(t.children[x], t.wins, t.visits, t.visits[x], bonus))];
      DescentLeaf(t, c, bonus);
      AncestorsClosed(t.parent, t.Descent(c, bonus), c);
    }
  }

  /** The pre-simulations of `start`: for each root child in order, return
      its column if its board is a win for piece 2, otherwise roll out and
      backpropagate from it six times.  Only visits and wins change. */
  method PreSimulate(t: Tree) returns (win: Option<int>)
    requires t.Valid()
    modifies t
    ensures t.Valid() && t.Shape() == old(t.Shape())
    ensures var cs := t.children[0]; var k := FirstTrue(RootWins(old(t.State())));
      && (k < |cs| ==> win == t.column[cs[k]])
      && (k == |cs| ==> win == None)
  {
    var cs := t.children[0];
    ghost var bs := RootWins(t.State());
    for j := 0 to |cs|
      invariant t.Valid() && t.Shape() == old(t.Shape())
      invariant j <= FirstTrue(bs)
    {
      var won := TryChild(t, j);
      assert won == bs[j];
      if won {
        assert FirstTrue(bs) == j;
        return t.column[cs[j]];
      }
    }
    assert FirstTrue(bs) == |cs|;
    win := None;
  }

  /** One step of the pre-simulations: whether root child `j` wins for
      piece 2; if it does not, six rollouts and backpropagations from it. */
  method TryChild(t: Tree, j: nat) returns (won: bool)
    requires t.Valid() && j < |t.children[0]|
    modifies t
    ensures t.Valid() && t.Shape() == old(t.Shape())
    ensures won == WinningMove(t.board[t.children[0][j]], PLAYER2_PIECE)
  {
    var c := t.children[0][j];
    won := WinningMove(t.board[c], PLAYER2_PIECE);
    if !won {
      for n := 0 to 6
        invariant t.Valid() && t.Shape() == old(t.Shape())
      {
        var result: int :| 0 <= result <= 2;
        t.BackPropagation(c, result);
      }
    }
  }

  /** What `start` may answer for board `b` when the root's children drop
      `piece`: an error (`random.choice` on no column) exactly when `b` has
      no available column, otherwise an available column, and the first
      available column whose drop wins for piece 2 when there is one. */
  predicate Answer(b: Grid, piece: int, r: Result<int, string>)
    requires IsBoard(b)
  {
    && (r.Err? <==> AvailableMoves(b) == MinusOne)
    && (r.Ok? ==> AvailableMoves(b).Columns? && r.value in AvailableMoves(b).cols)
    && (AvailableMoves(b).Columns? ==>
          var cols := AvailableMoves(b).cols;
          var k := FirstTrue(ChildWins(b, piece, cols));
          k < |cols| ==> r == Ok(cols[k]))
  }

  /** `start` on a root not expanded yet: add the root's children; return
      the first child's column whose board wins for piece 2, otherwise
      search and return `best_move()`. */
  method Start(t: Tree, iterations: nat, bonus: (nat, nat) -> real) returns (r: Result<int, string>)
    requires t.Valid() && t.children[0] == []
    modifies t
    ensures t.Valid() && t.board[0] == old(t.board[0])
    ensures Answer(old(t.board[0]), PieceFor(old(t.currentPlayer[0])), r)
  {
    ghost var b, piece := t.board[0], PieceFor(t.currentPlayer[0]);
    ExpandRoot(t);
    var win := PreSimulate(t);
    if win.Some? {
      return Ok(win.value);
    }
    r := Finish(t, iterations, bonus);
  }

  /** `add_children()` on the childless root, with the root's children's
      win tests read off the available columns. */
  method ExpandRoot(t: Tree)
    requires t.Valid() && t.children[0] == []
    modifies t
    ensures t.Valid() && t.board[0] == old(t.board[0]) && RootReady(t)
    ensures AvailableMoves(t.board[0]).Columns? ==>
      var cols := AvailableMoves(t.board[0]).cols;
      && |t.children[0]| == |cols|
      && (forall j :: 0 <= j < |cols| ==> t.column[t.children[0][j]] == Some(cols[j]))
      && RootWins(t.State()) == ChildWins(t.board[0], PieceFor(old(t.currentPlayer[0])), cols)
  {
    ghost var a := t.State();
    t.AddChildren(0);
    AddedInv(a, 0);
    if AvailableMoves(a.board[0]).Columns? {
      AddedRootWins(a);
    }
  }

  /** The end of `start` when no root child wins at once: `search` and
      `best_move()`.  An error exactly when the root has no child, and
      otherwise a column that was free on the root's board. */
  method Finish(t: Tree, iterations: nat, bonus: (nat, nat) -> real) returns (r: Result<int, string>)
    requires t.Valid() && RootReady(t)
    modifies t
    ensures t.Valid() && t.board[0] == old(t.board[0])
    ensures r.Err? <==> AvailableMoves(t.board[0]) == MinusOne
    ensures r.Ok? ==> AvailableMoves(t.board[0]).Columns? && r.value in AvailableMoves(t.board[0]).cols
  {
    Search(t, iterations, bonus);
    ghost var k;
    r, k := t.BestMove();
    if r.Ok? {
      var c := t.children[0][k];
      assert t.parent[c] == Some(0);
    }
  }

  /** `mcts(board)`: a search from a fresh root whose last player is
      player 2, so that the root's children drop piece 2. */
  method Mcts(b: Grid, iterations: nat, bonus: (nat, nat) -> real) returns (r: Result<int, string>)
    requires IsBoard(b)
    ensures Answer(b, PLAYER2_PIECE, r)
  {
    var t := new Tree(b, PLAYER2_PIECE);
    r := Start(t, iterations, bonus);
  }
}
