/** The Monte Carlo tree search of ai/mcts.py over the object board of
    game/board.py.  The nodes of one search live in the arena of module
    `MctsArena`: node `i` is described by entry `i` of every field of
    `Tree`. */
module Mcts {
  import opened Outcomes
  import opened Grids
  import opened GameBoard
  import opened MctsArena

  // ---------------------------------------------------------------------
  // The arena of `MCTSNode` objects

  class Tree {
    /** `node.board` */
    var board: seq<BoardState>
    /** `node.parent`: None for the root */
    var parent: seq<Option<nat>>
    /** `node.move`: the column played to reach the node, None for the root */
    var move: seq<Option<int>>
    /** `node.children`, in the order `expand` appended them */
    var children: seq<seq<nat>>
    /** `node.visits` */
    var visits: seq<nat>
    /** `node.wins`, in half-wins */
    var wins: seq<nat>
    /** `node.untried_moves` */
    var untriedMoves: seq<seq<int>>
    /** The legal moves of each node's board when the node was created. */
    ghost var legal: seq<seq<int>>
    /** How many rollouts were backpropagated from each node. */
    ghost var rollouts: seq<nat>
    /** The position of each node in its parent's children. */
    ghost var slot: seq<nat>

    function Size(): nat
      reads this
    {
      |board|
    }

    ghost predicate Valid()
      reads this
    {
      Inv(board, parent, move, children, visits, wins, untriedMoves, legal, rollouts, slot)
    }

    /** `MCTSNode(board)`: the root, holding a copy of the board, all its
        legal moves untried, no children, no visits and no wins. */
    constructor (b: BoardState)
      requires b.Valid()
      ensures Valid() && Size() == 1
      ensures board == [b] && parent == [None] && move == [None]
      ensures untriedMoves == [LegalMoves(b)] && children == [[]]
      ensures visits == [0] && wins == [0] && rollouts == [0]
    {
      board := [b];
      parent := [None];
      move := [None];
      children := [[]];
      visits := [0];
      wins := [0];
      untriedMoves := [LegalMoves(b)];
      legal := [LegalMoves(b)];
      rollouts := [0];
      slot := [0];
      new;
      RootInv(b);
    }

    /** A node's children and untried moves partition the legal moves of
        its board at creation: their numbers add up, the children's moves
        are legal and pairwise distinct, and no child's move is still
        untried. */
    lemma MovesPartition(i: nat)
      requires Valid() && i < Size()
      ensures |children[i]| + |untriedMoves[i]| == |LegalMoves(board[i])|
      ensures forall a, b :: 0 <= a < b < |children[i]| ==> move[children[i][a]] != move[children[i][b]]
      ensures forall k :: 0 <= k < |children[i]| ==>
        move[children[i][k]].value !in untriedMoves[i] && move[children[i][k]].value in LegalMoves(board[i])
    {
      var ms := MovesOf(children[i], move);
      Partition(untriedMoves[i], ms, legal[i]);
      forall k | 0 <= k < |children[i]|
        ensures move[children[i][k]].value == ms[k] && ms[k] in ms
      {
      }
    }

    /** `uct_value()` of a node other than the root, where `bonus(N, n)`
        stands for `exploration * sqrt(log(N) / n)`: infinite while the
        node is unvisited, otherwise its win rate, between 0 and 1, plus
        the exploration bonus. */
    function Uct(i: nat, bonus: (nat, nat) -> real): (u: Key)
      reads this
      requires Valid() && 0 < i < Size()
      ensures u == Infinite <==> visits[i] == 0
      ensures u.Finite? ==>
        0.0 <= u.x - bonus(visits[parent[i].value], visits[i]) <= 1.0
    {
      UctOf(wins[i], visits[i], visits[parent[i].value], bonus)
    }

    /** `select_child()`: a child of greatest UCT value, the first one in
        the list among equals. */
    function SelectChild(i: nat, bonus: (nat, nat) -> real): (c: nat)
      reads this
      requires Valid() && i < Size() && children[i] != []
      ensures c in children[i] && i < c < Size()
      ensures forall k :: 0 <= k < |children[i]| ==> !Above(Uct(children[i][k], bonus), Uct(c, bonus))
      ensures forall k :: 0 <= k < |children[i]| && children[i][k] < c ==>
        Above(Uct(c, bonus), Uct(children[i][k], bonus))
    {
      var k := BestUct(children[i], wins, visits, visits[i], bonus);
      assert forall j :: 0 <= j < |children[i]| ==> parent[children[i][j]] == Some(i);
      children[i][k]
    }

    /** `expand()`: some untried move is removed from the untried moves
        (its first occurrence), and a new child holding the board with that
        move dropped in is appended to the children; it is returned. */
    method Expand(i: nat) returns (c: nat, ghost m: int)
      requires Valid() && i < Size() && untriedMoves[i] != []
      modifies this
      ensures Valid()
      ensures c == old(Size()) && m in old(untriedMoves[i]) && Drop(old(board[i]), m).Ok?
      ensures Arena(board, parent, move, untriedMoves, children, visits, wins, legal, rollouts, slot)
        == Expanded(old(board), old(parent), old(move), old(untriedMoves), old(children), old(visits),
                    old(wins), old(legal), old(rollouts), old(slot), i, m, Drop(old(board[i]), m).value.0)
    {
      var k: nat :| k < |untriedMoves[i]|;
      var mv := untriedMoves[i][k];
      m := mv;
      ExpandedInv(board, parent, move, untriedMoves, children, visits, wins, legal, rollouts, slot, i, mv);
      c := Attach(i, mv, Drop(board[i], mv).value.0);
    }

    /** Appends to the fields the child of node `i` through move `m`,
        holding board `nb`. */
    method Attach(i: nat, m: int, nb: BoardState) returns (c: nat)
      requires i < |untriedMoves| && i < |children| && m in untriedMoves[i] && nb.Valid()
      modifies this
      ensures c == old(|board|)
      ensures Arena(board, parent, move, untriedMoves, children, visits, wins, legal, rollouts, slot)
        == Expanded(old(board), old(parent), old(move), old(untriedMoves), old(children), old(visits),
                    old(wins), old(legal), old(rollouts), old(slot), i, m, nb)
    {
      ghost var e := Expanded(board, parent, move, untriedMoves, children, visits, wins, legal, rollouts, slot, i, m, nb);
      c := |board|;
      var moves := LegalMoves(nb);
      board, parent, move := board + [nb], parent + [Some(i)], move + [Some(m)];
      untriedMoves, legal := untriedMoves[i := RemoveFirst(untriedMoves[i], m)] + [moves], legal + [moves];
      children, slot := children[i := children[i] + [c]] + [[]], slot + [|children[i]|];
      visits, wins, rollouts := visits + [0], wins + [0], rollouts + [0];
      assert Arena(board, parent, move, untriedMoves, children, visits, wins, legal, rollouts, slot) == e;
    }

    /** `backpropagate(result)` from node `x`: every node from `x` up to the
        root gains one visit, and the `k`-th of them gains `result` when `k`
        is even and `1 - result` when it is odd (`Bumped`,
        `CreditedAlternates`); the rollout is recorded at `x`. */
    method Backpropagate(x: nat, result: int)
      requires Valid() && x < Size() && 0 <= result <= 2
      modifies this
      ensures Valid()
      ensures board == old(board) && parent == old(parent) && move == old(move)
      ensures children == old(children) && untriedMoves == old(untriedMoves) && legal == old(legal)
      ensures slot == old(slot)
      ensures rollouts == old(rollouts)[x := old(rollouts)[x] + 1]
      ensures visits == Bumped(old(visits), Ancestors(parent, x))
      ensures wins == Credited(old(wins), Ancestors(parent, x), result)
    {
      ghost var rs := rollouts[x := rollouts[x] + 1];
      var vs, ws := Climb(parent, children, slot, visits, wins, rs, x, result);
      RetalliedInv(board, parent, move, children, visits, wins, untriedMoves, legal, rollouts, slot, vs, ws, rs);
      visits, wins, rollouts := vs, ws, rs;
    }

    /** `max(root.children, key=lambda c: c.visits).move`: the move of the
        first most visited child of the root, or the `ValueError` `max`
        raises on an empty list. */
    function BestMove(): (r: Result<int, string>)
      reads this
      requires Valid()
      ensures r.Err? <==> children[0] == []
      ensures r.Ok? ==> exists k :: (0 <= k < |children[0]| && move[children[0][k]] == Some(r.value)
        && (forall j :: 0 <= j < |children[0]| ==> visits[children[0][j]] <= visits[children[0][k]])
        && forall j :: 0 <= j < k ==> visits[children[0][j]] < visits[children[0][k]])
    {
      if children[0] == [] then Err("ValueError: max() arg is an empty sequence")
      else
        var cs := children[0];
        var k := FirstMostVisited(cs, visits);
        assert move[cs[k]] == Some(move[cs[k]].value);
        Ok(move[cs[k]].value)
    }
  }

  /** The descent of `get_best_move`: from the root, follow
      `select_child()` while the node has no untried move but has
      children. */
  method Descend(t: Tree, bonus: (nat, nat) -> real) returns (node: nat)
    requires t.Valid()
    ensures node < t.Size() && (t.untriedMoves[node] != [] || t.children[node] == [])
    ensures node == 0 || t.children[0] != []
  {
    node := 0;
    while t.untriedMoves[node] == [] && t.children[node] != []
      invariant node < t.Size()
      invariant node == 0 || t.children[0] != []
      decreases t.Size() - node
    {
      node := t.SelectChild(node, bonus);
    }
  }

  /** The expansion step of a round: expand the node the descent reached
      if an untried move remains.  The root keeps its board, its visits
      and its rollouts; once it has a legal move the node reached is not
      the root and the root has children. */
  method ExpandStep(t: Tree, node: nat) returns (leaf: nat)
    requires t.Valid() && node < t.Size() && (t.untriedMoves[node] != [] || t.children[node] == [])
    requires node == 0 || t.children[0] != []
    modifies t
    ensures t.Valid() && leaf < t.Size()
    ensures t.board[0] == old(t.board[0]) && t.visits[0] == old(t.visits[0]) && t.rollouts[0] == old(t.rollouts[0])
    ensures LegalMoves(t.board[0]) != [] ==> leaf != 0 && t.children[0] != []
    ensures old(t.children[0]) != [] ==> t.children[0] != []
    ensures LegalMoves(t.board[0]) == [] ==> t.children[0] == []
  {
    t.MovesPartition(0);
    leaf := node;
    if t.untriedMoves[node] != [] {
      ghost var m;
      leaf, m := t.Expand(node);
    }
  }

  /** One round of `get_best_move`: descend while the node has no untried
      move but has children, expand it if an untried move remains, then
      backpropagate a rollout result (0, 1 or 2 half-wins; the rollout
      itself is left abstract).  The root gains one visit; once it has a
      legal move the rollout never starts at the root itself, and the root
      has children from then on. */
  method Round(t: Tree, bonus: (nat, nat) -> real)
    requires t.Valid()
    modifies t
    ensures t.Valid() && t.board[0] == old(t.board[0])
    ensures t.visits[0] == old(t.visits[0]) + 1
    ensures LegalMoves(t.board[0]) != [] ==> t.rollouts[0] == old(t.rollouts[0]) && t.children[0] != []
    ensures old(t.children[0]) != [] ==> t.children[0] != []
    ensures LegalMoves(t.board[0]) == [] ==> t.children[0] == []
  {
    var node := Descend(t, bonus);
    node := ExpandStep(t, node);
    ghost var vs := t.visits;
    ghost var path := Ancestors(t.parent, node);
    assert 0 in path by {
      assert path[|path| - 1] == 0;
    }
    BumpedOnPath(vs, path, 0);
    var result: int :| 0 <= result <= 2;
    t.Backpropagate(node, result);
  }

  /** The search loop of `get_best_move` for `iterations` rounds.
      Afterwards the root was visited once per round and, when it had a
      legal move, every round went through one of its children. */
  method Search(b: BoardState, iterations: nat, bonus: (nat, nat) -> real) returns (t: Tree)
    requires b.Valid()
    ensures fresh(t) && t.Valid() && t.board[0] == b
    ensures t.visits[0] == iterations
    ensures LegalMoves(b) != [] ==> SumVisits(t.children[0], t.visits) == iterations
    ensures t.children[0] != [] <==> iterations > 0 && LegalMoves(b) != []
  {
    t := new Tree(b);
    for round := 0 to iterations
      invariant t.Valid() && t.board[0] == b && t.visits[0] == round
      invariant LegalMoves(b) != [] ==> t.rollouts[0] == 0
      invariant t.children[0] != [] <==> round > 0 && LegalMoves(b) != []
    {
      Round(t, bonus);
    }
  }

  /** `MCTSAgent.get_best_move(board)`: after the search, the move of a
      most visited root child; it is a legal move of the board.  With no
      round or no legal move the root has no child and `max` raises. */
  method GetBestMove(b: BoardState, iterations: nat, bonus: (nat, nat) -> real)
    returns (r: Result<int, string>)
    requires b.Valid()
    ensures r.Err? <==> iterations == 0 || LegalMoves(b) == []
    ensures r.Ok? ==> r.value in LegalMoves(b) && Drop(b, r.value).Ok?
  {
    var t := Search(b, iterations, bonus);
    r := t.BestMove();
    if r.Ok? {
      t.MovesPartition(0);
      LegalMoveDrops(b, r.value);
    }
  }
}
