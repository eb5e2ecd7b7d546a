/** `AStar.search` of ai/aEstrela.py and ai/a_star.py: a best-first search
    over the states reached by the searching player's own moves, cut off at
    a depth bound or a terminal state, that remembers the first move of the
    first leaf whose evaluation beats every earlier leaf. */
module SegmentSearch {
  import opened Outcomes
  import opened Grids
  import opened SegmentHeuristic
  import opened SegmentFrontier

  /** `heapq.heappop`: removes an entry that is least by `(f, g)`. */
  method Pop(initial: Grid, player: int, ev: Evaluator, d: nat, frontier: seq<Entry>)
    returns (i: int, e: Entry, rest: seq<Entry>)
    requires IsState(initial) && frontier != []
    requires AllGood(initial, player, ev, d, frontier)
    ensures Least(frontier, i) && e == frontier[i] && rest == frontier[..i] + frontier[i + 1..]
    ensures GoodEntry(initial, player, ev, d, e)
    ensures AllGood(initial, player, ev, d, rest)
    ensures Work(frontier, d) == Work(rest, d) + Weight(d - |e.path|)
  {
    LeastExists(frontier);
    i :| Least(frontier, i);
    e := frontier[i];
    rest := frontier[..i] + frontier[i + 1..];
    PopIsGood(initial, player, ev, d, frontier, i);
  }

  lemma PopIsGood(initial: Grid, player: int, ev: Evaluator, d: nat, frontier: seq<Entry>, i: int)
    requires IsState(initial) && 0 <= i < |frontier|
    requires AllGood(initial, player, ev, d, frontier)
    ensures GoodEntry(initial, player, ev, d, frontier[i])
    ensures AllGood(initial, player, ev, d, frontier[..i] + frontier[i + 1..])
    ensures Work(frontier, d) == Work(frontier[..i] + frontier[i + 1..], d) + Weight(d - |frontier[i].path|)
  {
    KeepGood(initial, player, ev, d, frontier, i);
    WorkRemove(frontier, i, d);
  }

  /** Scores a popped entry that is at the bound or terminal, and records
      it as a leaf. */
  method ScoreLeaf(initial: Grid, player: int, ev: Evaluator, maxDepth: int, e: Entry,
                   bestScore: Option<int>, bestAction: Option<int>, ghost leaves: seq<Leaf>)
    returns (newScore: Option<int>, newAction: Option<int>, ghost newLeaves: seq<Leaf>)
    requires IsState(initial) && GoodEntry(initial, player, ev, Depth(maxDepth), e)
    requires |e.path| >= maxDepth || IsTerminal(e.state)
    requires AllLeaves(initial, player, ev, maxDepth, leaves)
    requires Best(bestScore, bestAction) == Track(leaves)
    ensures newLeaves == leaves + [Leaf(Score(ev, e.state, player), e.path)]
    ensures AllLeaves(initial, player, ev, maxDepth, newLeaves)
    ensures Best(newScore, newAction) == Track(newLeaves)
  {
    var score := EvaluateState(ev, e.state, player);
    LeafIsGood(initial, player, ev, maxDepth, e, score);
    AllLeavesSnoc(initial, player, ev, maxDepth, leaves, Leaf(score, e.path));
    TrackSnoc(leaves, Leaf(score, e.path));
    newScore, newAction := RecordLeaf(bestScore, bestAction, score, e.path);
    newLeaves := leaves + [Leaf(score, e.path)];
  }

  /** Expands a popped entry below the bound and pushes its children. */
  method Grow(initial: Grid, player: int, ev: Evaluator, d: nat, e: Entry, rest: seq<Entry>)
    returns (frontier: seq<Entry>)
    requires IsState(initial) && GoodEntry(initial, player, ev, d, e)
    requires |e.path| < d && !IsTerminal(e.state)
    requires AllGood(initial, player, ev, d, rest)
    ensures |frontier| > 0
    ensures AllGood(initial, player, ev, d, frontier)
    ensures Work(frontier, d) < Work(rest, d) + Weight(d - |e.path|)
  {
    var children := Expand(player, ev, e);
    ChildrenAreGood(initial, player, ev, d, e, children);
    WorkAppend(rest, children, d);
    JoinGood(initial, player, ev, d, rest, children);
    frontier := rest + children;
  }

  /** The `while open_set` loop of `search`: pops a least entry, scores it
      as a leaf when it is at the bound or terminal and otherwise pushes its
      children, until the frontier is empty.  `leaves` lists the scored
      leaves in pop order. */
  method Drain(initial: Grid, player: int, ev: Evaluator, maxDepth: int)
    returns (bestScore: Option<int>, bestAction: Option<int>, ghost leaves: seq<Leaf>)
    requires IsState(initial)
    ensures |leaves| > 0
    ensures forall l :: l in leaves ==> GoodLeaf(initial, player, ev, maxDepth, l)
    ensures Best(bestScore, bestAction) == Track(leaves)
  {
    var frontier := Root(initial, player, ev, Depth(maxDepth));
    bestScore, bestAction := None, None;
    leaves := [];
    while frontier != []
      invariant AllGood(initial, player, ev, Depth(maxDepth), frontier)
      invariant AllLeaves(initial, player, ev, maxDepth, leaves)
      invariant Best(bestScore, bestAction) == Track(leaves)
      invariant |leaves| + |frontier| > 0
      decreases Work(frontier, Depth(maxDepth))
    {
      frontier, bestScore, bestAction, leaves := Turn(initial, player, ev, maxDepth, frontier, bestScore, bestAction, leaves);
    }
    LeavesWhenDrained(initial, player, ev, maxDepth, leaves, frontier);
  }

  /** When the frontier is empty, the leaves scored are all good, and
      there is at least one. */
  lemma LeavesWhenDrained(initial: Grid, player: int, ev: Evaluator, maxDepth: int, leaves: seq<Leaf>, frontier: seq<Entry>)
    requires IsState(initial) && AllLeaves(initial, player, ev, maxDepth, leaves)
    requires |leaves| + |frontier| > 0 && frontier == []
    ensures |leaves| > 0
    ensures forall l :: l in leaves ==> GoodLeaf(initial, player, ev, maxDepth, l)
  {
    AllLeavesMembers(initial, player, ev, maxDepth, leaves);
  }

  /** One iteration of the `while open_set` loop. */
  method Turn(initial: Grid, player: int, ev: Evaluator, maxDepth: int, frontier: seq<Entry>,
              bestScore: Option<int>, bestAction: Option<int>, ghost leaves: seq<Leaf>)
    returns (frontier': seq<Entry>, bestScore': Option<int>, bestAction': Option<int>, ghost leaves': seq<Leaf>)
    requires IsState(initial) && frontier != []
    requires AllGood(initial, player, ev, Depth(maxDepth), frontier)
    requires AllLeaves(initial, player, ev, maxDepth, leaves)
    requires Best(bestScore, bestAction) == Track(leaves)
    ensures AllGood(initial, player, ev, Depth(maxDepth), frontier')
    ensures AllLeaves(initial, player, ev, maxDepth, leaves')
    ensures Best(bestScore', bestAction') == Track(leaves')
    ensures |leaves'| + |frontier'| > 0
    ensures Work(frontier', Depth(maxDepth)) < Work(frontier, Depth(maxDepth))
  {
    var d := Depth(maxDepth);
    var i, e, rest := Pop(initial, player, ev, d, frontier);
    if |e.path| >= maxDepth || IsTerminal(e.state) {
      bestScore', bestAction', leaves' := ScoreLeaf(initial, player, ev, maxDepth, e, bestScore, bestAction, leaves);
      frontier' := rest;
    } else {
      frontier' := Grow(initial, player, ev, d, e, rest);
      bestScore', bestAction', leaves' := bestScore, bestAction, leaves;
    }
  }

  /** `search(max_depth)`.  `leaves` lists the popped leaves in pop order.
      The answer is the tracked best action when there is one, and
      otherwise any legal action of the initial state (`random.choice`),
      which fails when there is none. */
  method Search(initial: Grid, player: int, ev: Evaluator, maxDepth: int)
    returns (r: Result<int, string>, ghost leaves: seq<Leaf>)
    requires IsState(initial)
    ensures r.Ok? ==> r.value in LegalActions(initial)
    ensures r.Err? <==> LegalActions(initial) == []
    ensures leaves != []
    ensures forall l :: l in leaves ==> GoodLeaf(initial, player, ev, maxDepth, l)
    ensures Track(leaves).action.Some? ==> r == Ok(Track(leaves).action.value)
    ensures maxDepth >= 1 && !IsTerminal(initial) ==> Track(leaves).action.Some? && r == Ok(Track(leaves).action.value)
    ensures maxDepth >= 1 && !IsTerminal(initial) ==>
      exists i :: 0 <= i < |leaves| && leaves[i].path != [] && r == Ok(leaves[i].path[0])
                  && (forall l :: l in leaves ==> l.score <= leaves[i].score)
                  && forall j :: 0 <= j < i ==> leaves[j].score < leaves[i].score
  {
    var bestScore, bestAction;
    bestScore, bestAction, leaves := Drain(initial, player, ev, maxDepth);
    if bestAction.Some? {
      TrackIsBest(leaves);
      ghost var l :| l in leaves && l.path != [] && l.path[0] == bestAction.value;
      r := Ok(bestAction.value);
    } else {
      var legal := LegalActions(initial);
      if legal == [] {
        r := Err("IndexError: Cannot choose from an empty sequence");
      } else {
        assert legal[0] in legal;
        var a :| a in legal;
        r := Ok(a);
      }
    }
    if maxDepth >= 1 && !IsTerminal(initial) {
      forall l | l in leaves ensures l.path != [] {
        LeafBelowRoot(initial, player, ev, maxDepth, l);
      }
      TrackSetsAction(leaves);
      TrackIsFirstBest(leaves);
    }
  }
}
