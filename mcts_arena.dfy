/** The node arena of the Monte Carlo tree search of ai/mcts.py, on
    values: node `i` is entry `i` of every sequence (its board, parent,
    move, children, visits, wins and untried moves).  Node 0 is the root
    and a child always has a larger index than its parent, so following
    parents always ends at the root.  Rollout results are kept in
    half-units (0 a loss, 1 a draw, 2 a win), so `wins` counts half-wins
    and stays an integer.  This module states what a valid arena is and
    proves that `expand` and `backpropagate` keep it valid; module `Mcts`
    holds the tree object that updates it in place. */
module MctsArena {
  import opened Outcomes
  import opened Grids
  import opened GameBoard

  /** `board.get_legal_moves()` of a board snapshot. */
  function LegalMoves(b: BoardState): (ms: seq<int>)
    requires b.Valid()
    ensures forall c :: c in ms <==> 0 <= c < b.columns && b.grid[0][c] == 0
    ensures Increasing(ms)
  {
    ZeroesFrom(b.grid[0], 0)
  }

  /** A legal move never makes `drop_piece` raise. */
  lemma LegalMoveDrops(b: BoardState, m: int)
    requires b.Valid() && m in LegalMoves(b)
    ensures Drop(b, m).Ok?
  {
    assert b.grid[0][m] == 0;
  }

  // ---------------------------------------------------------------------
  // Python's `max(xs, key=...)` over float keys

  /** A float key: `float('inf')` or a finite value. */
  datatype Key = Infinite | Finite(x: real)

  /** Python's `a > b` on keys. */
  predicate Above(a: Key, b: Key)
  {
    match (a, b)
    case (Infinite, Finite(_)) => true
    case (Finite(x), Finite(y)) => x > y
    case _ => false
  }

  /** The position `max` picks: it keeps the first entry and replaces it
      only by a strictly greater one, so the result is the first greatest. */
  function FirstMax(keys: seq<Key>): (k: nat)
    requires keys != []
    ensures k < |keys|
    ensures forall j :: 0 <= j < |keys| ==> !Above(keys[j], keys[k])
    ensures forall j :: 0 <= j < k ==> Above(keys[k], keys[j])
  {
    if |keys| == 1 then 0
    else
      var k := FirstMax(keys[..|keys| - 1]);
      if Above(keys[|keys| - 1], keys[k]) then |keys| - 1 else k
  }

  /** `max(cs, key=lambda c: c.visits)`: the position of the first node of
      `cs` with the most visits. */
  function FirstMostVisited(cs: seq<nat>, visits: seq<nat>): (k: nat)
    requires cs != [] && forall j :: 0 <= j < |cs| ==> cs[j] < |visits|
    ensures k < |cs|
    ensures forall j :: 0 <= j < |cs| ==> visits[cs[j]] <= visits[cs[k]]
    ensures forall j :: 0 <= j < k ==> visits[cs[j]] < visits[cs[k]]
  {
    var keys := seq(|cs|, j requires 0 <= j < |cs| => Finite(visits[cs[j]] as real));
    var k := FirstMax(keys);
    assert forall j :: 0 <= j < |cs| ==> visits[cs[j]] <= visits[cs[k]] by {
      forall j | 0 <= j < |cs| ensures visits[cs[j]] <= visits[cs[k]] {
        assert !Above(keys[j], keys[k]);
      }
    }
    assert forall j :: 0 <= j < k ==> visits[cs[j]] < visits[cs[k]] by {
      forall j | 0 <= j < k ensures visits[cs[j]] < visits[cs[k]] {
        assert Above(keys[k], keys[j]);
      }
    }
    k
  }

  // ---------------------------------------------------------------------
  // Sequences the tree's invariants are stated with

  /** The sum of `visits` over the nodes `cs`. */
  function SumVisits(cs: seq<nat>, visits: seq<nat>): nat
    requires forall k :: 0 <= k < |cs| ==> cs[k] < |visits|
  {
    if cs == [] then 0 else SumVisits(cs[..|cs| - 1], visits) + visits[cs[|cs| - 1]]
  }

  /** Adding one visit to node `x` adds one to the sum over `cs` exactly
      when `x` is one of the (distinct) nodes `cs`. */
  lemma {:induction false} SumBump(cs: seq<nat>, visits: seq<nat>, x: nat)
    requires forall k :: 0 <= k < |cs| ==> cs[k] < |visits|
    requires x < |visits| && Increasing(cs)
    ensures SumVisits(cs, visits[x := visits[x] + 1]) == SumVisits(cs, visits) + if x in cs then 1 else 0
  {
    if cs != [] {
      var init := cs[..|cs| - 1];
      assert Increasing(init);
      SumBump(init, visits, x);
      if cs[|cs| - 1] == x {
        assert x !in init;
      }
      assert cs == init + [cs[|cs| - 1]];
    }
  }

  /** A new node appended to `visits` changes no sum over older nodes. */
  lemma {:induction false} SumExtend(cs: seq<nat>, visits: seq<nat>, v: nat)
    requires forall k :: 0 <= k < |cs| ==> cs[k] < |visits|
    ensures SumVisits(cs, visits + [v]) == SumVisits(cs, visits)
  {
    if cs != [] {
      SumExtend(cs[..|cs| - 1], visits, v);
    }
  }

  /** The moves of the nodes `cs`. */
  function MovesOf(cs: seq<nat>, move: seq<Option<int>>): (ms: seq<int>)
    requires forall k :: 0 <= k < |cs| ==> cs[k] < |move| && move[cs[k]].Some?
    ensures |ms| == |cs|
    ensures forall k :: 0 <= k < |cs| ==> ms[k] == move[cs[k]].value
  {
    seq(|cs|, k requires 0 <= k < |cs| => move[cs[k]].value)
  }

  /** `list.remove(x)`: the list without the first occurrence of `x`. */
  function RemoveFirst(s: seq<int>, x: int): (r: seq<int>)
    requires x in s
    ensures multiset(r) == multiset(s) - multiset{x}
    ensures |r| == |s| - 1
  {
    assert s == [s[0]] + s[1..];
    if s[0] == x then s[1..] else [s[0]] + RemoveFirst(s[1..], x)
  }

  /** Each value occurs at most once in an increasing sequence. */
  lemma {:induction false} IncreasingOnce(s: seq<int>, x: int)
    requires Increasing(s)
    ensures multiset(s)[x] <= 1
  {
    if s != [] {
      assert s == [s[0]] + s[1..];
      assert Increasing(s[1..]);
      IncreasingOnce(s[1..], x);
      if s[0] == x {
        assert x !in s[1..];
      }
    }
  }

  /** The result added at the `k`-th node up from where a rollout started:
      `result` there, `1 - result` at its parent, and so on. */
  function Alternate(result: int, k: nat): (a: int)
    requires 0 <= result <= 2
    ensures 0 <= a <= 2
  {
    if k == 0 then result else 2 - Alternate(result, k - 1)
  }

  /** A win rate `w / n` with `w <= n` lies between 0 and 1. */
  lemma RateBound(w: nat, n: nat)
    requires 0 < n && w <= n
    ensures 0.0 <= w as real / n as real <= 1.0
  {
    var q := w as real / n as real;
    assert q * n as real == w as real;
    assert (1.0 - q) * n as real == (n - w) as real;
  }

  /** The UCT value of a node with `wins` half-wins in `visits` visits
      whose parent has `parentVisits` visits. */
  function UctOf(wins: nat, visits: nat, parentVisits: nat, bonus: (nat, nat) -> real): (u: Key)
    ensures u == Infinite <==> visits == 0
    ensures u.Finite? && wins <= 2 * visits ==> 0.0 <= u.x - bonus(parentVisits, visits) <= 1.0
  {
    if visits == 0 then Infinite
    else
      if wins <= 2 * visits then RateBound(wins, 2 * visits); Finite(wins as real / (2 * visits) as real + bonus(parentVisits, visits))
      else Finite(wins as real / (2 * visits) as real + bonus(parentVisits, visits))
  }

  /** The position, among the nodes `cs` sharing a parent with
      `parentVisits` visits, of the first node of greatest UCT value. */
  function BestUct(cs: seq<nat>, wins: seq<nat>, visits: seq<nat>, parentVisits: nat,
                   bonus: (nat, nat) -> real): (k: nat)
    requires cs != [] && Increasing(cs)
    requires forall j :: 0 <= j < |cs| ==> cs[j] < |visits| && cs[j] < |wins|
    ensures k < |cs|
    ensures forall j :: 0 <= j < |cs| ==>
      !Above(UctOf(wins[cs[j]], visits[cs[j]], parentVisits, bonus),
             UctOf(wins[cs[k]], visits[cs[k]], parentVisits, bonus))
    ensures forall j :: 0 <= j < |cs| && cs[j] < cs[k] ==>
      Above(UctOf(wins[cs[k]], visits[cs[k]], parentVisits, bonus),
            UctOf(wins[cs[j]], visits[cs[j]], parentVisits, bonus))
  {
    var keys := seq(|cs|, j requires 0 <= j < |cs| => UctOf(wins[cs[j]], visits[cs[j]], parentVisits, bonus));
    var k := FirstMax(keys);
    assert keys[k] == UctOf(wins[cs[k]], visits[cs[k]], parentVisits, bonus);
    assert forall j :: 0 <= j < |cs| ==> keys[j] == UctOf(wins[cs[j]], visits[cs[j]], parentVisits, bonus);
    assert forall j :: 0 <= j < |cs| && cs[j] < cs[k] ==> j < k;
    k
  }

  /** The visit counts after one more visit of every node of `path`. */
  function Bumped(visits: seq<nat>, path: seq<nat>): (v: seq<nat>)
    ensures |v| == |visits|
  {
    seq(|visits|, j requires 0 <= j < |visits| => visits[j] + if j in path then 1 else 0)
  }

  /** A node on the path gains exactly one visit. */
  lemma BumpedOnPath(visits: seq<nat>, path: seq<nat>, x: nat)
    requires x < |visits| && x in path
    ensures Bumped(visits, path)[x] == visits[x] + 1
  {
  }

  /** The win counts after the `k`-th node of `path` gained
      `Alternate(result, k)`. */
  function Credited(wins: seq<nat>, path: seq<nat>, result: int): (w: seq<nat>)
    requires forall i :: 0 <= i < |path| ==> path[i] < |wins|
    requires 0 <= result <= 2
    ensures |w| == |wins|
  {
    if path == [] then wins
    else
      var w := Credited(wins, path[..|path| - 1], result);
      var x := path[|path| - 1];
      w[x := w[x] + Alternate(result, |path| - 1)]
  }

  predicate Distinct(path: seq<nat>)
  {
    forall i, j :: 0 <= i < j < |path| ==> path[i] != path[j]
  }

  /** Along a path without repetition, the `k`-th node gains
      `Alternate(result, k)` wins and nodes off the path gain none. */
  lemma {:induction false} CreditedAlternates(wins: seq<nat>, path: seq<nat>, result: int)
    requires forall i :: 0 <= i < |path| ==> path[i] < |wins|
    requires Distinct(path) && 0 <= result <= 2
    ensures forall k :: 0 <= k < |path| ==>
      Credited(wins, path, result)[path[k]] == wins[path[k]] + Alternate(result, k)
    ensures forall j :: 0 <= j < |wins| && j !in path ==> Credited(wins, path, result)[j] == wins[j]
  {
    if path != [] {
      var init := path[..|path| - 1];
      CreditedAlternates(wins, init, result);
      assert path == init + [path[|path| - 1]];
      forall k | 0 <= k < |path| - 1
        ensures path[k] != path[|path| - 1] && path[k] == init[k]
      {
      }
    }
  }

  /** Extending a prefix of a path without repetition by its next node
      adds that node's visit. */
  lemma BumpedStep(visits: seq<nat>, path: seq<nat>, k: nat)
    requires k < |path| && path[k] < |visits| && path[k] !in path[..k]
    ensures var v := Bumped(visits, path[..k]);
      Bumped(visits, path[..k + 1]) == v[path[k] := v[path[k]] + 1]
  {
    assert path[..k + 1] == path[..k] + [path[k]];
  }

  /** Extending a prefix of `path` by its next node adds that node's
      result. */
  lemma CreditedStep(wins: seq<nat>, path: seq<nat>, k: nat, result: int)
    requires k < |path| && 0 <= result <= 2
    requires forall i :: 0 <= i < |path| ==> path[i] < |wins|
    ensures var w := Credited(wins, path[..k], result);
      Credited(wins, path[..k + 1], result) == w[path[k] := w[path[k]] + Alternate(result, k)]
  {
    var p := path[..k + 1];
    assert |p| == k + 1 && p[..|p| - 1] == path[..k] && p[|p| - 1] == path[k];
    assert forall i :: 0 <= i < |p| ==> p[i] < |wins|;
    var w := Credited(wins, path[..k], result);
    assert Credited(wins, p, result) == w[p[k] := w[p[k]] + Alternate(result, k)];
  }

  // ---------------------------------------------------------------------
  // The invariants of a tree, one concern each

  /** Parent and child links agree: node `c` is entry `slot[c]` of its
      parent's children; children are listed in creation order. */
  predicate Linked(parent: seq<Option<nat>>, children: seq<seq<nat>>, slot: seq<nat>)
  {
    && |parent| == |children| == |slot| >= 1
    && parent[0] == None
    && (forall c :: 0 < c < |parent| ==> parent[c].Some? && parent[c].value < c)
    && (forall i, k :: 0 <= i < |children| && 0 <= k < |children[i]| ==>
          0 < children[i][k] < |parent| && parent[children[i][k]] == Some(i))
    && (forall c :: 0 < c < |parent| ==>
          slot[c] < |children[parent[c].value]| && children[parent[c].value][slot[c]] == c)
    && (forall i :: 0 <= i < |children| ==> Increasing(children[i]))
  }

  /** Every board is well formed; every node but the root has a move. */
  predicate Grown(board: seq<BoardState>, move: seq<Option<int>>)
  {
    && |board| == |move| >= 1
    && (forall i :: 0 <= i < |board| ==> board[i].Valid())
    && move[0] == None
    && forall c :: 0 < c < |move| ==> move[c].Some?
  }

  /** The untried moves and the children's moves of a node together are the
      legal moves of its board when it was created. */
  predicate Tried(board: seq<BoardState>, move: seq<Option<int>>, children: seq<seq<nat>>,
                  untried: seq<seq<int>>, legal: seq<seq<int>>)
    requires |board| == |children| == |untried| == |legal|
    requires forall i :: 0 <= i < |board| ==> board[i].Valid()
    requires forall i, k :: 0 <= i < |children| && 0 <= k < |children[i]| ==>
               children[i][k] < |move| && move[children[i][k]].Some?
  {
    forall i {:trigger legal[i]} :: 0 <= i < |board| ==>
      && legal[i] == LegalMoves(board[i])
      && multiset(untried[i]) + multiset(MovesOf(children[i], move)) == multiset(legal[i])
  }

  /** Every node's visits are the rollouts backpropagated from it plus its
      children's visits, except that `pending` (when present) is one visit
      short while a backpropagation is under way. */
  predicate Pending(children: seq<seq<nat>>, visits: seq<nat>, rollouts: seq<nat>, pending: Option<nat>)
    requires |children| == |visits| == |rollouts|
    requires forall i, k :: 0 <= i < |children| && 0 <= k < |children[i]| ==> children[i][k] < |visits|
  {
    forall i {:trigger rollouts[i]} :: 0 <= i < |children| ==>
      visits[i] + (if pending == Some(i) then 1 else 0) == rollouts[i] + SumVisits(children[i], visits)
  }

  /** Visits add up, and no node has more than one win per visit. */
  predicate Tallied(children: seq<seq<nat>>, visits: seq<nat>, wins: seq<nat>, rollouts: seq<nat>)
    requires |children| == |visits| == |wins| == |rollouts|
    requires forall i, k :: 0 <= i < |children| && 0 <= k < |children[i]| ==> children[i][k] < |visits|
  {
    && (forall i {:trigger wins[i]} :: 0 <= i < |children| ==> wins[i] <= 2 * visits[i])
    && Pending(children, visits, rollouts, None)
  }

  /** The nodes from `x` up to the root, following parents. */
  function Ancestors(parent: seq<Option<nat>>, x: nat): (path: seq<nat>)
    requires x < |parent| && parent[0] == None
    requires forall c :: 0 < c < |parent| ==> parent[c].Some? && parent[c].value < c
    ensures |path| >= 1 && path[0] == x && path[|path| - 1] == 0
    ensures forall i :: 0 <= i < |path| ==> path[i] < |parent|
    decreases x
  {
    if x == 0 then [0] else [x] + Ancestors(parent, parent[x].value)
  }

  /** The path from `x` to the root strictly decreases and follows the
      parent links, ending at the root, the one node without a parent. */
  lemma {:induction false} AncestorsLinked(parent: seq<Option<nat>>, x: nat)
    requires x < |parent| && parent[0] == None
    requires forall c :: 0 < c < |parent| ==> parent[c].Some? && parent[c].value < c
    ensures var path := Ancestors(parent, x);
      && (forall i, j :: 0 <= i < j < |path| ==> path[i] > path[j])
      && (forall i :: 0 <= i < |path| - 1 ==> parent[path[i]] == Some(path[i + 1]))
      && parent[path[|path| - 1]] == None
    decreases x
  {
    if x != 0 {
      AncestorsLinked(parent, parent[x].value);
    }
  }

  /** Appending `n` to an increasing list of nodes below `n` keeps it
      increasing. */
  lemma IncreasingSnoc(cs: seq<nat>, n: nat)
    requires Increasing(cs) && forall k :: 0 <= k < |cs| ==> cs[k] < n
    ensures Increasing(cs + [n])
  {
    forall a, b | 0 <= a < b < |cs| + 1
      ensures (cs + [n])[a] < (cs + [n])[b]
    {
      if b == |cs| {
        assert cs[a] < n;
      }
    }
  }

  /** A new node, child `n` of node `i`, keeps parent and child links in
      agreement. */
  lemma LinkedGrow(parent: seq<Option<nat>>, children: seq<seq<nat>>, slot: seq<nat>, i: nat)
    requires Linked(parent, children, slot) && i < |parent|
    ensures var n := |parent|;
      Linked(parent + [Some(i)], children[i := children[i] + [n]] + [[]], slot + [|children[i]|])
  {
    ChildrenGrow(parent, children, i);
    SlotsGrow(parent, children, slot, i);
    OrderGrow(children, i, |parent|);
  }

  /** A new node, child `n` of node `i`: every node is still found at its
      slot among its parent's children. */
  lemma SlotsGrow(parent: seq<Option<nat>>, children: seq<seq<nat>>, slot: seq<nat>, i: nat)
    requires Linked(parent, children, slot) && i < |parent|
    ensures var n := |parent|;
      var parent', children', slot' := parent + [Some(i)], children[i := children[i] + [n]] + [[]], slot + [|children[i]|];
      forall c :: 0 < c < |parent'| ==>
        slot'[c] < |children'[parent'[c].value]| && children'[parent'[c].value][slot'[c]] == c
  {
    var n := |parent|;
    var parent', children', slot' := parent + [Some(i)], children[i := children[i] + [n]] + [[]], slot + [|children[i]|];
    forall c | 0 < c < |parent'|
      ensures slot'[c] < |children'[parent'[c].value]| && children'[parent'[c].value][slot'[c]] == c
    {
      if c < n {
        assert children'[parent[c].value][slot[c]] == children[parent[c].value][slot[c]];
      }
    }
  }

  /** A new node numbered above every node keeps every child list
      increasing. */
  lemma OrderGrow(children: seq<seq<nat>>, i: nat, n: nat)
    requires i < |children| && forall j :: 0 <= j < |children| ==> Increasing(children[j])
    requires forall k :: 0 <= k < |children[i]| ==> children[i][k] < n
    ensures var children' := children[i := children[i] + [n]] + [[]];
      forall j :: 0 <= j < |children'| ==> Increasing(children'[j])
  {
    var children' := children[i := children[i] + [n]] + [[]];
    forall j | 0 <= j < |children'|
      ensures Increasing(children'[j])
    {
      if j == i {
        IncreasingSnoc(children[i], n);
      }
    }
  }

  /** A new node, child `n` of node `i`: every child still points back to
      its parent. */
  lemma ChildrenGrow(parent: seq<Option<nat>>, children: seq<seq<nat>>, i: nat)
    requires |parent| == |children| && i < |parent|
    requires forall j, k :: 0 <= j < |children| && 0 <= k < |children[j]| ==>
               0 < children[j][k] < |parent| && parent[children[j][k]] == Some(j)
    ensures var n := |parent|;
      var parent', children' := parent + [Some(i)], children[i := children[i] + [n]] + [[]];
      forall j, k :: 0 <= j < |children'| && 0 <= k < |children'[j]| ==>
        0 < children'[j][k] < |parent'| && parent'[children'[j][k]] == Some(j)
  {
    var n := |parent|;
    var parent', children' := parent + [Some(i)], children[i := children[i] + [n]] + [[]];
    forall j, k | 0 <= j < |children'| && 0 <= k < |children'[j]|
      ensures 0 < children'[j][k] < |parent'| && parent'[children'[j][k]] == Some(j)
    {
      if j == i && k == |children[i]| {
        assert children'[j][k] == n;
      } else {
        assert children'[j][k] == children[j][k];
      }
    }
  }

  /** A new child of node `i` reached by the untried move `m` keeps every
      node's untried and tried moves a partition of its legal moves. */
  lemma TriedGrow(board: seq<BoardState>, move: seq<Option<int>>, children: seq<seq<nat>>,
                  untried: seq<seq<int>>, legal: seq<seq<int>>, i: nat, m: int, nb: BoardState)
    requires |board| == |children| == |untried| == |legal| == |move| && i < |board|
    requires forall j :: 0 <= j < |board| ==> board[j].Valid()
    requires forall j, k :: 0 <= j < |children| && 0 <= k < |children[j]| ==>
               children[j][k] < |move| && move[children[j][k]].Some?
    requires Tried(board, move, children, untried, legal)
    requires m in untried[i] && nb.Valid()
    ensures var n := |board|;
      Tried(board + [nb], move + [Some(m)], children[i := children[i] + [n]] + [[]],
            untried[i := RemoveFirst(untried[i], m)] + [LegalMoves(nb)], legal + [LegalMoves(nb)])
  {
    var n := |board|;
    var move' := move + [Some(m)];
    var children' := children[i := children[i] + [n]] + [[]];
    var untried' := untried[i := RemoveFirst(untried[i], m)] + [LegalMoves(nb)];
    var legal' := legal + [LegalMoves(nb)];
    forall j | 0 <= j < n + 1
      ensures multiset(untried'[j]) + multiset(MovesOf(children'[j], move')) == multiset(legal'[j])
    {
      if j == n {
        assert MovesOf(children'[j], move') == [];
      } else if j == i {
        assert MovesOf(children'[j], move') == MovesOf(children[j], move) + [m];
        assert multiset(untried[j])[m] > 0;
      } else {
        assert MovesOf(children'[j], move') == MovesOf(children[j], move);
      }
    }
  }

  /** A new, unvisited child of node `i` keeps the visits adding up. */
  lemma TalliedGrow(children: seq<seq<nat>>, visits: seq<nat>, wins: seq<nat>, rollouts: seq<nat>, i: nat)
    requires |children| == |visits| == |wins| == |rollouts| && i < |children|
    requires forall j, k :: 0 <= j < |children| && 0 <= k < |children[j]| ==> children[j][k] < |visits|
    requires Tallied(children, visits, wins, rollouts)
    ensures var n := |children|;
      Tallied(children[i := children[i] + [n]] + [[]], visits + [0], wins + [0], rollouts + [0])
  {
    var n := |children|;
    var children' := children[i := children[i] + [n]] + [[]];
    forall j | 0 <= j < n
      ensures SumVisits(children'[j], visits + [0]) == SumVisits(children[j], visits)
    {
      SumExtend(children[j], visits, 0);
      if j == i {
        assert children'[j][..|children'[j]| - 1] == children[j];
      }
    }
  }

  /** One more visit of the node `v` that was one short balances it and
      leaves its parent, if any, one short instead. */
  lemma BumpStep(parent: seq<Option<nat>>, children: seq<seq<nat>>, slot: seq<nat>, visits: seq<nat>,
                 rollouts: seq<nat>, v: nat)
    requires Linked(parent, children, slot) && |visits| == |rollouts| == |children| && v < |children|
    requires Pending(children, visits, rollouts, Some(v))
    ensures Pending(children, visits[v := visits[v] + 1], rollouts, parent[v])
  {
    forall j | 0 <= j < |children|
      ensures SumVisits(children[j], visits[v := visits[v] + 1])
        == SumVisits(children[j], visits) + if parent[v] == Some(j) then 1 else 0
    {
      SumBump(children[j], visits, v);
      if v in children[j] {
        var k :| 0 <= k < |children[j]| && children[j][k] == v;
      }
      if v > 0 && parent[v] == Some(j) {
        assert children[j][slot[v]] == v;
      }
    }
  }

  /** Moves that together with the untried moves make up the (increasing)
      legal moves are distinct, legal and not untried. */
  lemma Partition(untried: seq<int>, ms: seq<int>, legal: seq<int>)
    requires multiset(untried) + multiset(ms) == multiset(legal) && Increasing(legal)
    ensures |ms| + |untried| == |legal|
    ensures forall a, b :: 0 <= a < b < |ms| ==> ms[a] != ms[b]
    ensures forall x :: x in ms ==> x !in untried && x in legal
  {
    assert |multiset(untried) + multiset(ms)| == |multiset(legal)|;
    forall a, b | 0 <= a < b < |ms|
      ensures ms[a] != ms[b]
    {
      if ms[a] == ms[b] {
        var x := ms[a];
        assert ms == ms[..b] + ms[b..];
        assert x in ms[..b] && x in ms[b..];
        IncreasingOnce(legal, x);
      }
    }
    forall x | x in ms
      ensures x !in untried && x in legal
    {
      if x in untried {
        IncreasingOnce(legal, x);
      }
      assert multiset(legal)[x] >= 1;
    }
  }

  /** All invariants of a tree, over the values of its fields. */
  ghost predicate Inv(board: seq<BoardState>, parent: seq<Option<nat>>, move: seq<Option<int>>,
                      children: seq<seq<nat>>, visits: seq<nat>, wins: seq<nat>, untried: seq<seq<int>>,
                      legal: seq<seq<int>>, rollouts: seq<nat>, slot: seq<nat>)
  {
    && |board| == |parent| == |move| == |children| == |visits| == |wins|
       == |untried| == |legal| == |rollouts| == |slot| >= 1
    && Linked(parent, children, slot)
    && Grown(board, move)
    && Tried(board, move, children, untried, legal)
    && Tallied(children, visits, wins, rollouts)
  }

  /** A lone root with all the legal moves of its board untried is a
      valid tree. */
  lemma RootInv(b: BoardState)
    requires b.Valid()
    ensures Inv([b], [None], [None], [[]], [0], [0], [LegalMoves(b)], [LegalMoves(b)], [0], [0])
  {
    assert MovesOf([], [None]) == [];
    var rollouts: seq<nat> := [0];
    assert rollouts[0] == 0 && SumVisits([], [0]) == 0;
  }

  /** An untried move of a node of a valid tree is legal on its board, so
      it can be dropped in. */
  lemma UntriedDrops(board: seq<BoardState>, parent: seq<Option<nat>>, move: seq<Option<int>>,
                     children: seq<seq<nat>>, visits: seq<nat>, wins: seq<nat>, untried: seq<seq<int>>,
                     legal: seq<seq<int>>, rollouts: seq<nat>, slot: seq<nat>, i: nat, m: int)
    requires Inv(board, parent, move, children, visits, wins, untried, legal, rollouts, slot)
    requires i < |board| && m in untried[i]
    ensures m in LegalMoves(board[i]) && Drop(board[i], m).Ok?
  {
    assert legal[i] == LegalMoves(board[i]);
    assert multiset(untried[i]) + multiset(MovesOf(children[i], move)) == multiset(legal[i]);
    assert multiset(untried[i])[m] > 0;
    assert multiset(legal[i])[m] > 0;
    LegalMoveDrops(board[i], m);
  }

  /** The tree `expand` builds by adding child `|board|` to node `i`
      through the untried move `m` is again a valid tree. */
  lemma ExpandInv(board: seq<BoardState>, parent: seq<Option<nat>>, move: seq<Option<int>>,
                  children: seq<seq<nat>>, visits: seq<nat>, wins: seq<nat>, untried: seq<seq<int>>,
                  legal: seq<seq<int>>, rollouts: seq<nat>, slot: seq<nat>, i: nat, m: int, nb: BoardState)
    requires Inv(board, parent, move, children, visits, wins, untried, legal, rollouts, slot)
    requires i < |board| && m in untried[i] && nb.Valid()
    ensures var n := |board|;
      Inv(board + [nb], parent + [Some(i)], move + [Some(m)], children[i := children[i] + [n]] + [[]],
          visits + [0], wins + [0], untried[i := RemoveFirst(untried[i], m)] + [LegalMoves(nb)],
          legal + [LegalMoves(nb)], rollouts + [0], slot + [|children[i]|])
  {
    LinkedGrow(parent, children, slot, i);
    TriedGrow(board, move, children, untried, legal, i, m, nb);
    TalliedGrow(children, visits, wins, rollouts, i);
  }

  /** The fields of a tree, as one value. */
  datatype Arena = Arena(board: seq<BoardState>, parent: seq<Option<nat>>, move: seq<Option<int>>,
                         untried: seq<seq<int>>, children: seq<seq<nat>>, visits: seq<nat>, wins: seq<nat>,
                         legal: seq<seq<int>>, rollouts: seq<nat>, slot: seq<nat>)

  /** The arena after `expand` adds child `|board|` to node `i` through
      its untried move `m`, with `nb` the board of `i` with `m` dropped in:
      the new node holds `nb`, is the last child of `i`, and starts
      unvisited with the legal moves of `nb` untried; `m` is removed from
      the untried moves of `i` (its first occurrence) and nothing else
      changes. */
  ghost function Expanded(board: seq<BoardState>, parent: seq<Option<nat>>, move: seq<Option<int>>,
                          untried: seq<seq<int>>, children: seq<seq<nat>>, visits: seq<nat>, wins: seq<nat>,
                          legal: seq<seq<int>>, rollouts: seq<nat>, slot: seq<nat>, i: nat, m: int,
                          nb: BoardState): Arena
    requires i < |untried| && i < |children| && m in untried[i] && nb.Valid()
  {
    Arena(board + [nb], parent + [Some(i)], move + [Some(m)], untried[i := RemoveFirst(untried[i], m)] + [LegalMoves(nb)],
          children[i := children[i] + [|board|]] + [[]], visits + [0], wins + [0], legal + [LegalMoves(nb)],
          rollouts + [0], slot + [|children[i]|])
  }

  /** Growing a valid tree through an untried move gives a valid tree. */
  lemma ExpandedInv(board: seq<BoardState>, parent: seq<Option<nat>>, move: seq<Option<int>>,
                    untried: seq<seq<int>>, children: seq<seq<nat>>, visits: seq<nat>, wins: seq<nat>,
                    legal: seq<seq<int>>, rollouts: seq<nat>, slot: seq<nat>, i: nat, m: int)
    requires Inv(board, parent, move, children, visits, wins, untried, legal, rollouts, slot)
    requires i < |board| && m in untried[i]
    ensures Drop(board[i], m).Ok?
    ensures var a := Expanded(board, parent, move, untried, children, visits, wins, legal, rollouts, slot,
                              i, m, Drop(board[i], m).value.0);
      Inv(a.board, a.parent, a.move, a.children, a.visits, a.wins, a.untried, a.legal, a.rollouts, a.slot)
  {
    UntriedDrops(board, parent, move, children, visits, wins, untried, legal, rollouts, slot, i, m);
    var nb := Drop(board[i], m).value.0;
    ExpandInv(board, parent, move, children, visits, wins, untried, legal, rollouts, slot, i, m, nb);
  }

  /** New visit and win counts that still add up keep a tree valid. */
  lemma RetalliedInv(board: seq<BoardState>, parent: seq<Option<nat>>, move: seq<Option<int>>,
                     children: seq<seq<nat>>, visits: seq<nat>, wins: seq<nat>, untried: seq<seq<int>>,
                     legal: seq<seq<int>>, rollouts: seq<nat>, slot: seq<nat>,
                     visits': seq<nat>, wins': seq<nat>, rollouts': seq<nat>)
    requires Inv(board, parent, move, children, visits, wins, untried, legal, rollouts, slot)
    requires |visits'| == |wins'| == |rollouts'| == |visits|
    requires Tallied(children, visits', wins', rollouts')
    ensures Inv(board, parent, move, children, visits', wins', untried, legal, rollouts', slot)
  {
  }

  /** No node has more than one win (two half-wins) per visit. */
  predicate WinsBounded(wins: seq<nat>, visits: seq<nat>)
  {
    |wins| == |visits| && forall j :: 0 <= j < |wins| ==> wins[j] <= 2 * visits[j]
  }

  /** The state of the walk of `backpropagate` after its first `k` nodes:
      they have their visit and result, the next node `node` (if any) is
      the `k`-th of the path and is one visit short of its tally, and `r`
      is the result it gains. */
  ghost predicate Climbed(children: seq<seq<nat>>, visits: seq<nat>, wins: seq<nat>, rollouts: seq<nat>,
                          path: seq<nat>, result: int, k: nat, node: Option<nat>,
                          vs: seq<nat>, ws: seq<nat>, r: int)
    requires |visits| == |wins| == |rollouts| == |children| && 0 <= result <= 2
    requires forall i :: 0 <= i < |path| ==> path[i] < |visits|
    requires forall i, j :: 0 <= i < |children| && 0 <= j < |children[i]| ==> children[i][j] < |visits|
  {
    && k <= |path| && (node.Some? <==> k < |path|)
    && (node.Some? ==> node.value == path[k])
    && r == Alternate(result, k)
    && vs == Bumped(visits, path[..k])
    && ws == Credited(wins, path[..k], result)
    && WinsBounded(ws, vs)
    && Pending(children, vs, rollouts, node)
  }

  /** One step of the walk of `backpropagate` keeps `Climbed`. */
  lemma ClimbStep(parent: seq<Option<nat>>, children: seq<seq<nat>>, slot: seq<nat>, visits: seq<nat>,
                  wins: seq<nat>, rollouts: seq<nat>, x: nat, result: int, k: nat, node: Option<nat>,
                  vs: seq<nat>, ws: seq<nat>, r: int)
    requires Linked(parent, children, slot) && |visits| == |wins| == |rollouts| == |children|
    requires x < |parent| && 0 <= result <= 2
    requires Climbed(children, visits, wins, rollouts, Ancestors(parent, x), result, k, node, vs, ws, r)
    requires node.Some?
    ensures var v := node.value;
      Climbed(children, visits, wins, rollouts, Ancestors(parent, x), result, k + 1, parent[v],
              vs[v := vs[v] + 1], ws[v := ws[v] + r], 2 - r)
  {
    var path := Ancestors(parent, x);
    var v := node.value;
    PathNext(parent, x, k);
    BumpStep(parent, children, slot, vs, rollouts, v);
    CountStep(visits, wins, path, result, k, vs, ws, r);
  }

  /** The `k`-th node of the path from `x` to the root is not among the
      nodes before it, and its parent is the next node of the path, or
      none at the root. */
  lemma PathNext(parent: seq<Option<nat>>, x: nat, k: nat)
    requires x < |parent| && parent[0] == None
    requires forall c :: 0 < c < |parent| ==> parent[c].Some? && parent[c].value < c
    requires k < |Ancestors(parent, x)|
    ensures var path := Ancestors(parent, x);
      && path[k] !in path[..k]
      && (k + 1 < |path| ==> parent[path[k]] == Some(path[k + 1]))
      && (k + 1 == |path| ==> parent[path[k]] == None)
  {
    var path := Ancestors(parent, x);
    AncestorsLinked(parent, x);
    assert path[k] !in path[..k] by {
      forall i | 0 <= i < k ensures path[i] != path[k] { }
    }
  }

  /** One step of the walk of `backpropagate` on the counts: the `k`-th
      node of the path gains a visit and `r`, and `r` flips. */
  lemma CountStep(visits: seq<nat>, wins: seq<nat>, path: seq<nat>, result: int, k: nat,
                  vs: seq<nat>, ws: seq<nat>, r: int)
    requires |visits| == |wins| && 0 <= result <= 2
    requires forall i :: 0 <= i < |path| ==> path[i] < |visits|
    requires k < |path| && path[k] !in path[..k]
    requires r == Alternate(result, k)
    requires vs == Bumped(visits, path[..k]) && ws == Credited(wins, path[..k], result)
    requires WinsBounded(ws, vs)
    ensures var v := path[k];
      && 2 - r == Alternate(result, k + 1)
      && vs[v := vs[v] + 1] == Bumped(visits, path[..k + 1])
      && ws[v := ws[v] + r] == Credited(wins, path[..k + 1], result)
      && WinsBounded(ws[v := ws[v] + r], vs[v := vs[v] + 1])
  {
    BumpedStep(visits, path, k);
    CreditedStep(wins, path, k, result);
  }

  /** The walk of `backpropagate` starts at `x` with nothing credited. */
  lemma ClimbStart(parent: seq<Option<nat>>, children: seq<seq<nat>>, slot: seq<nat>, visits: seq<nat>,
                   wins: seq<nat>, rollouts: seq<nat>, x: nat, result: int)
    requires Linked(parent, children, slot) && |visits| == |wins| == |rollouts| == |children|
    requires x < |parent| && 0 <= result <= 2
    requires forall j :: 0 <= j < |wins| ==> wins[j] <= 2 * visits[j]
    requires Pending(children, visits, rollouts, Some(x))
    ensures Climbed(children, visits, wins, rollouts, Ancestors(parent, x), result, 0, Some(x), visits, wins, result)
  {
    var path := Ancestors(parent, x);
    assert path[..0] == [];
  }

  /** Once the walk of `backpropagate` has passed the root, every node of
      the path has its visit and result and the counts add up again. */
  lemma ClimbDone(parent: seq<Option<nat>>, children: seq<seq<nat>>, slot: seq<nat>, visits: seq<nat>,
                  wins: seq<nat>, rollouts: seq<nat>, x: nat, result: int, k: nat,
                  vs: seq<nat>, ws: seq<nat>, r: int)
    requires Linked(parent, children, slot) && |visits| == |wins| == |rollouts| == |children|
    requires x < |parent| && 0 <= result <= 2
    requires Climbed(children, visits, wins, rollouts, Ancestors(parent, x), result, k, None, vs, ws, r)
    ensures vs == Bumped(visits, Ancestors(parent, x))
    ensures ws == Credited(wins, Ancestors(parent, x), result)
    ensures Tallied(children, vs, ws, rollouts)
  {
    var path := Ancestors(parent, x);
    assert path[..k] == path;
  }

  /** The walk of `backpropagate` from node `x` up the parent links, on the
      visit and win counts: each node gains a visit and the current result,
      which flips to `1 - result` for the parent.  Node `x` starts one
      visit short of its tally; afterwards the counts add up again. */
  method Climb(parent: seq<Option<nat>>, children: seq<seq<nat>>, ghost slot: seq<nat>, visits: seq<nat>,
               wins: seq<nat>, ghost rollouts: seq<nat>, x: nat, result: int)
    returns (vs: seq<nat>, ws: seq<nat>)
    requires Linked(parent, children, slot) && |visits| == |wins| == |rollouts| == |children|
    requires x < |parent| && 0 <= result <= 2
    requires forall j :: 0 <= j < |wins| ==> wins[j] <= 2 * visits[j]
    requires Pending(children, visits, rollouts, Some(x))
    ensures vs == Bumped(visits, Ancestors(parent, x))
    ensures ws == Credited(wins, Ancestors(parent, x), result)
    ensures Tallied(children, vs, ws, rollouts)
  {
    ghost var path := Ancestors(parent, x);
    vs, ws := visits, wins;
    var node: Option<nat> := Some(x);
    var r := result;
    ghost var k := 0;
    ClimbStart(parent, children, slot, visits, wins, rollouts, x, result);
    while node.Some?
      invariant |vs| == |visits| && |ws| == |wins| && 0 <= r <= 2
      invariant node.Some? ==> node.value < |visits|
      invariant Climbed(children, visits, wins, rollouts, path, result, k, node, vs, ws, r)
      decreases |path| - k
    {
      var v := node.value;
      ClimbStep(parent, children, slot, visits, wins, rollouts, x, result, k, node, vs, ws, r);
      vs := vs[v := vs[v] + 1];
      ws := ws[v := ws[v] + r];
      r := 2 - r;
      node := parent[v];
      k := k + 1;
    }
    ClimbDone(parent, children, slot, visits, wins, rollouts, x, result, k, vs, ws, r);
  }
}
