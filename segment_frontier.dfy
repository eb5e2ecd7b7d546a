/** The states, leaves and frontier entries of `AStar.search` in
    ai/aEstrela.py and ai/a_star.py, and what the search keeps true of
    them. */
module SegmentFrontier {
  import opened Outcomes
  import opened Grids
  import opened SegmentHeuristic

  // ---------------------------------------------------------------------
  // Paths of moves

  /** The state reached from `g` by dropping `player` into the columns of
      `path` in turn (`apply_action` along the path). */
  function Replay(g: Grid, path: seq<int>, player: int): (h: Grid)
    requires IsState(g)
    ensures IsState(h)
  {
    if path == [] then g
    else
      var prev := Replay(g, path[..|path| - 1], player);
      var a := path[|path| - 1];
      if 0 <= a < COLUMNS then Applied(prev, a, player) else prev
  }

  /** Column `a` is a legal action of `g` (`get_legal_actions` lists it). */
  predicate Playable(g: Grid, a: int)
    requires IsState(g)
  {
    0 <= a < COLUMNS && g[0][a] == 0
  }

  /** The move path starts with a legal action of `g`. */
  predicate FirstPlayable(g: Grid, path: seq<int>)
    requires IsState(g)
  {
    path != [] ==> Playable(g, path[0])
  }

  /** Replaying a path only ever fills free cells with `player`. */
  lemma {:induction false} ReplayOnlyAdds(g: Grid, path: seq<int>, player: int)
    requires IsState(g)
    ensures OnlyAdds(g, Replay(g, path, player), player)
  {
    if path != [] {
      var prev := Replay(g, path[..|path| - 1], player);
      ReplayOnlyAdds(g, path[..|path| - 1], player);
      var a := path[|path| - 1];
      if 0 <= a < COLUMNS {
        AppliedOnlyAdds(prev, a, player);
        OnlyAddsTransitive(g, prev, Replay(g, path, player), player);
      }
    }
  }

  lemma ExtendPath(g: Grid, path: seq<int>, a: int, player: int)
    requires IsState(g) && FirstPlayable(g, path)
    requires a in LegalActions(Replay(g, path, player))
    ensures FirstPlayable(g, path + [a])
    ensures Replay(g, path + [a], player) == Applied(Replay(g, path, player), a, player)
  {
    assert (path + [a])[..|path|] == path;
  }

  // ---------------------------------------------------------------------
  // The best leaf so far

  /** A popped leaf: its evaluation and its move path. */
  datatype Leaf = Leaf(score: int, path: seq<int>)

  /** `best_score` (None for -inf) and `best_action` after the leaves in
      order: a leaf scoring strictly above `best_score` replaces it, and its
      first move replaces `best_action` unless its path is empty. */
  datatype Best = Best(score: Option<int>, action: Option<int>)

  /** One leaf scored: the update at the end of the leaf branch. */
  function Record(b: Best, l: Leaf): Best
  {
    if b.score.None? || l.score > b.score.value then
      Best(Some(l.score), if l.path != [] then Some(l.path[0]) else b.action)
    else b
  }

  function Track(leaves: seq<Leaf>): Best
  {
    if leaves == [] then Best(None, None)
    else Record(Track(leaves[..|leaves| - 1]), leaves[|leaves| - 1])
  }

  lemma TrackSnoc(leaves: seq<Leaf>, l: Leaf)
    ensures Track(leaves + [l]) == Record(Track(leaves), l)
  {
    assert (leaves + [l])[..|leaves|] == leaves;
  }

  /** The tracked score is the greatest leaf score, and the tracked action
      is the first move of a leaf holding a record score. */
  lemma {:induction false} TrackIsBest(leaves: seq<Leaf>)
    ensures var b := Track(leaves);
      && (leaves == [] <==> b.score.None?)
      && (b.score.Some? ==> (forall l :: l in leaves ==> l.score <= b.score.value)
                            && exists l :: l in leaves && l.score == b.score.value)
      && (b.action.Some? ==> exists l :: l in leaves && l.path != [] && l.path[0] == b.action.value)
  {
    if leaves != [] {
      var init := leaves[..|leaves| - 1];
      TrackIsBest(init);
      var l := leaves[|leaves| - 1];
      assert leaves == init + [l];
      var b := Track(init);
      if b.score.Some? {
        var w :| w in init && w.score == b.score.value;
        assert w in leaves;
      }
      if b.action.Some? {
        var w :| w in init && w.path != [] && w.path[0] == b.action.value;
        assert w in leaves;
      }
      assert l in leaves;
    }
  }

  /** When every leaf has a move, the tracked action is the first move of
      the first leaf reaching the greatest score: every earlier leaf scores
      strictly less. */
  lemma {:induction false} TrackIsFirstBest(leaves: seq<Leaf>)
    requires leaves != [] && forall l :: l in leaves ==> l.path != []
    ensures var b := Track(leaves);
      && b.score.Some? && b.action.Some?
      && (forall l :: l in leaves ==> l.score <= b.score.value)
      && exists i :: 0 <= i < |leaves| && leaves[i].score == b.score.value && leaves[i].path[0] == b.action.value
                     && forall j :: 0 <= j < i ==> leaves[j].score < b.score.value
  {
    var init := leaves[..|leaves| - 1];
    var l := leaves[|leaves| - 1];
    assert leaves == init + [l];
    assert l in leaves;
    assert forall x :: x in init ==> x in leaves;
    TrackIsBest(leaves);
    TrackIsBest(init);
    if init != [] {
      TrackIsFirstBest(init);
    }
    FirstBestStep(init, l, Track(init));
  }

  /** The inductive step of `TrackIsFirstBest`, with
      the facts about `init` as premises. */
  lemma FirstBestStep(init: seq<Leaf>, l: Leaf, b: Best)
    requires b == Track(init) && l.path != [] && forall x :: x in init ==> x.path != []
    requires init == [] <==> b.score.None?
    requires b.score.Some? ==> forall x :: x in init ==> x.score <= b.score.value
    requires b.action.Some? ==>
      exists i :: 0 <= i < |init| && init[i].score == b.score.value && init[i].path[0] == b.action.value
                  && forall j :: 0 <= j < i ==> init[j].score < b.score.value
    requires init != [] ==> b.action.Some?
    ensures var b' := Record(b, l); var leaves := init + [l];
      b'.action.Some? &&
      exists i :: 0 <= i < |leaves| && leaves[i].score == b'.score.value && leaves[i].path[0] == b'.action.value
                  && forall j :: 0 <= j < i ==> leaves[j].score < b'.score.value
  {
    var leaves := init + [l];
    if b.score.None? || l.score > b.score.value {
      var i := |init|;
      assert leaves[i] == l;
      forall j | 0 <= j < i ensures leaves[j].score < l.score {
        assert leaves[j] == init[j] && init[j] in init;
      }
    } else {
      var i :| 0 <= i < |init| && init[i].score == b.score.value && init[i].path[0] == b.action.value
               && forall j :: 0 <= j < i ==> init[j].score < b.score.value;
      assert leaves[i] == init[i];
      forall j | 0 <= j < i ensures leaves[j].score < b.score.value {
        assert leaves[j] == init[j];
      }
    }
  }

  /** If no leaf has an empty path, some leaf sets `best_action`. */
  lemma {:induction false} TrackSetsAction(leaves: seq<Leaf>)
    requires leaves != [] && forall l :: l in leaves ==> l.path != []
    ensures Track(leaves).action.Some?
  {
    var init := leaves[..|leaves| - 1];
    if init != [] {
      forall l | l in init ensures l.path != [] {
        assert l in leaves;
      }
      TrackSetsAction(init);
    }
  }

  // ---------------------------------------------------------------------
  // The frontier

  /** A heap entry `(f_score, g_score, state, action_path)`. */
  datatype Entry = Entry(f: int, g: int, state: Grid, path: seq<int>)

  /** The initial heap: the start state with an empty path, `g = 0` and
      `f = h`. */
  method Root(initial: Grid, player: int, ev: Evaluator, d: nat) returns (frontier: seq<Entry>)
    requires IsState(initial)
    ensures frontier == [Entry(Score(ev, initial, player), 0, initial, [])]
    ensures AllGood(initial, player, ev, d, frontier)
  {
    var h0 := EvaluateState(ev, initial, player);
    frontier := [Entry(h0, 0, initial, [])];
    RootIsGood(initial, player, ev, d, h0);
  }

  lemma RootIsGood(initial: Grid, player: int, ev: Evaluator, d: nat, h0: int)
    requires IsState(initial) && h0 == Score(ev, initial, player)
    ensures AllGood(initial, player, ev, d, [Entry(h0, 0, initial, [])])
  {
    var e := Entry(h0, 0, initial, []);
    assert Replay(initial, e.path, player) == initial;
    assert GoodEntry(initial, player, ev, d, e);
    assert [e][..0] == [];
  }

  /** `heapq.heappop` takes an entry that is least in (f, g); the source
      then compares states and paths, which this model leaves open. */
  predicate Least(frontier: seq<Entry>, i: int)
  {
    && 0 <= i < |frontier|
    && forall j :: 0 <= j < |frontier| ==>
         frontier[i].f < frontier[j].f || (frontier[i].f == frontier[j].f && frontier[i].g <= frontier[j].g)
  }

  lemma {:induction false} LeastExists(frontier: seq<Entry>)
    requires frontier != []
    ensures exists i :: Least(frontier, i)
  {
    if |frontier| == 1 {
      assert Least(frontier, 0);
    } else {
      var init := frontier[..|frontier| - 1];
      LeastExists(init);
      var i :| Least(init, i);
      var last := |frontier| - 1;
      if Least(frontier, i) {
      } else {
        assert Least(frontier, last);
      }
    }
  }

  /** The work left below an entry at `k` more levels: it and at most seven
      children per level. */
  function Weight(k: nat): nat
    ensures Weight(k) >= 1
  {
    if k == 0 then 1 else 1 + 7 * Weight(k - 1)
  }

  function Depth(maxDepth: int): nat
  {
    if maxDepth > 0 then maxDepth else 0
  }

  function Work(frontier: seq<Entry>, d: nat): nat
  {
    if frontier == [] then 0
    else
      var e := frontier[|frontier| - 1];
      Work(frontier[..|frontier| - 1], d) + (if |e.path| <= d then Weight(d - |e.path|) else 0)
  }

  lemma {:induction false} WorkAppend(a: seq<Entry>, b: seq<Entry>, d: nat)
    ensures Work(a + b, d) == Work(a, d) + Work(b, d)
    decreases |b|
  {
    if b == [] {
      assert a + b == a;
    } else {
      assert (a + b)[..|a + b| - 1] == a + b[..|b| - 1];
      WorkAppend(a, b[..|b| - 1], d);
    }
  }

  lemma WorkRemove(frontier: seq<Entry>, i: int, d: nat)
    requires 0 <= i < |frontier| && |frontier[i].path| <= d
    ensures Work(frontier, d) == Work(frontier[..i] + frontier[i + 1..], d) + Weight(d - |frontier[i].path|)
  {
    assert frontier == frontier[..i] + [frontier[i]] + frontier[i + 1..];
    WorkAppend(frontier[..i] + [frontier[i]], frontier[i + 1..], d);
    WorkAppend(frontier[..i], [frontier[i]], d);
    WorkAppend(frontier[..i], frontier[i + 1..], d);
  }

  /** A state has at most seven legal actions, so its children weigh at
      most seven times one child: the bound `ChildrenAreGood` needs. */
  lemma Spread(n: nat, w: nat)
    requires n <= COLUMNS
    ensures n * w <= 7 * w
  {
  }

  /** One more entry at the same level adds one more weight: the step of
      `WorkLevel`. */
  lemma MulSucc(n: nat, w: nat)
    ensures (n + 1) * w == n * w + w
  {
  }

  /** Entries that all sit `k` levels down carry `Weight(d - k)` each. */
  lemma {:induction false} WorkLevel(frontier: seq<Entry>, d: nat, k: nat)
    requires k <= d && forall x :: x in frontier ==> |x.path| == k
    ensures Work(frontier, d) == |frontier| * Weight(d - k)
  {
    if frontier != [] {
      var init := frontier[..|frontier| - 1];
      assert forall x :: x in init ==> x in frontier;
      WorkLevel(init, d, k);
      assert frontier[|frontier| - 1] in frontier;
      MulSucc(|init|, Weight(d - k));
    }
  }

  /** What every entry on the frontier satisfies: its state is its path
      replayed from the initial state, `g` is the path length, within the
      depth bound, and `f` is `g` plus the evaluation. */
  predicate GoodEntry(initial: Grid, player: int, ev: Evaluator, d: nat, e: Entry)
    requires IsState(initial)
  {
    && FirstPlayable(initial, e.path)
    && e.state == Replay(initial, e.path, player)
    && e.g == |e.path| <= d
    && e.f == e.g + Score(ev, e.state, player)
  }

  /** A leaf the search scored: a legal path within the bound that stops at
      the bound or at a terminal state, with its evaluation. */
  predicate GoodLeaf(initial: Grid, player: int, ev: Evaluator, maxDepth: int, l: Leaf)
    requires IsState(initial)
  {
    && FirstPlayable(initial, l.path)
    && |l.path| <= Depth(maxDepth)
    && (|l.path| >= maxDepth || IsTerminal(Replay(initial, l.path, player)))
    && l.score == Score(ev, Replay(initial, l.path, player), player)
  }

  /** `evaluate(state)`: the window heuristic, or the learned model's
      prediction on the flattened state. */
  method EvaluateState(ev: Evaluator, state: Grid, player: int) returns (score: int)
    requires IsState(state)
    ensures score == Score(ev, state, player)
    ensures ev.Heuristic? ==> score == HeuristicScore(state, player)
  {
    match ev
    case Heuristic =>
      score := Evaluate(state, player);
    case Learned(predict) =>
      var features := StateToFeatureVector(state);
      score := predict(features);
  }

  /** The entry pushed for `action` when `entry` is expanded. */
  function Child(ev: Evaluator, player: int, entry: Entry, action: int): Entry
    requires IsState(entry.state)
  {
    var next := if 0 <= action < COLUMNS then Applied(entry.state, action, player) else entry.state;
    Entry(entry.g + 1 + Score(ev, next, player), entry.g + 1, next, entry.path + [action])
  }

  /** A child of a frontier entry is a frontier entry one level deeper. */
  lemma ChildIsGood(initial: Grid, player: int, ev: Evaluator, d: nat, entry: Entry, action: int)
    requires IsState(initial) && GoodEntry(initial, player, ev, d, entry)
    requires |entry.path| < d && action in LegalActions(entry.state)
    ensures GoodEntry(initial, player, ev, d, Child(ev, player, entry, action))
  {
    ExtendPath(initial, entry.path, action, player);
  }

  /** The expansion loop of `search`: one child per legal action of the
      popped state, in column order. */
  method Expand(player: int, ev: Evaluator, entry: Entry) returns (children: seq<Entry>)
    requires IsState(entry.state)
    ensures var actions := LegalActions(entry.state);
      && |children| == |actions|
      && forall j :: 0 <= j < |children| ==> children[j] == Child(ev, player, entry, actions[j])
  {
    var actions := LegalActions(entry.state);
    children := [];
    var j := 0;
    while j < |actions|
      invariant 0 <= j <= |actions|
      invariant |children| == j
      invariant forall i :: 0 <= i < j ==> children[i] == Child(ev, player, entry, actions[i])
    {
      var action := actions[j];
      assert action in actions;
      var next := ApplyAction(entry.state, action, player);
      var h := EvaluateState(ev, next, player);
      var child := Entry(entry.g + 1 + h, entry.g + 1, next, entry.path + [action]);
      assert child == Child(ev, player, entry, action);
      children := children + [child];
      j := j + 1;
    }
  }

  /** The children of a frontier entry that is not a leaf: at least one,
      all of them frontier entries one level deeper, and together less work
      than their parent. */
  lemma ChildrenAreGood(initial: Grid, player: int, ev: Evaluator, d: nat, entry: Entry, children: seq<Entry>)
    requires IsState(initial) && GoodEntry(initial, player, ev, d, entry)
    requires |entry.path| < d && !IsTerminal(entry.state)
    requires var actions := LegalActions(entry.state);
      && |children| == |actions|
      && forall j :: 0 <= j < |children| ==> children[j] == Child(ev, player, entry, actions[j])
    ensures children != []
    ensures forall x :: x in children ==> GoodEntry(initial, player, ev, d, x)
    ensures Work(children, d) < Weight(d - |entry.path|)
  {
    var actions := LegalActions(entry.state);
    assert |actions| > 0 by {
      assert !TopRowFull(entry.state);
      var col :| 0 <= col < COLUMNS && entry.state[0][col] == 0;
      assert col in actions;
    }
    forall x | x in children
      ensures GoodEntry(initial, player, ev, d, x) && |x.path| == |entry.path| + 1
    {
      var j :| 0 <= j < |children| && children[j] == x;
      assert actions[j] in actions;
      ChildIsGood(initial, player, ev, d, entry, actions[j]);
    }
    WorkLevel(children, d, |entry.path| + 1);
    Spread(|actions|, Weight(d - |entry.path| - 1));
  }

  /** Every entry of `es` is good, stated by recursion on the sequence. */
  predicate AllGood(initial: Grid, player: int, ev: Evaluator, d: nat, es: seq<Entry>)
    requires IsState(initial)
  {
    es != [] ==> AllGood(initial, player, ev, d, es[..|es| - 1]) && GoodEntry(initial, player, ev, d, es[|es| - 1])
  }

  lemma {:induction false} AllGoodMembers(initial: Grid, player: int, ev: Evaluator, d: nat, es: seq<Entry>)
    requires IsState(initial)
    ensures AllGood(initial, player, ev, d, es) <==> forall e :: e in es ==> GoodEntry(initial, player, ev, d, e)
  {
    if es != [] {
      var init := es[..|es| - 1];
      AllGoodMembers(initial, player, ev, d, init);
      assert es == init + [es[|es| - 1]];
    }
  }

  /** Popping entry `i` keeps the rest of the frontier good. */
  lemma KeepGood(initial: Grid, player: int, ev: Evaluator, d: nat, frontier: seq<Entry>, i: int)
    requires IsState(initial) && 0 <= i < |frontier|
    requires AllGood(initial, player, ev, d, frontier)
    ensures GoodEntry(initial, player, ev, d, frontier[i])
    ensures AllGood(initial, player, ev, d, frontier[..i] + frontier[i + 1..])
  {
    AllGoodMembers(initial, player, ev, d, frontier);
    AllGoodMembers(initial, player, ev, d, frontier[..i] + frontier[i + 1..]);
    assert frontier[i] in frontier;
    assert forall x :: x in frontier[..i] + frontier[i + 1..] ==> x in frontier;
  }

  /** Pushing good children keeps the frontier good. */
  lemma JoinGood(initial: Grid, player: int, ev: Evaluator, d: nat, a: seq<Entry>, b: seq<Entry>)
    requires IsState(initial)
    requires AllGood(initial, player, ev, d, a)
    requires forall e :: e in b ==> GoodEntry(initial, player, ev, d, e)
    ensures AllGood(initial, player, ev, d, a + b)
  {
    AllGoodMembers(initial, player, ev, d, a);
    AllGoodMembers(initial, player, ev, d, a + b);
  }

  /** Every leaf of `ls` is good, stated by recursion on the sequence. */
  predicate AllLeaves(initial: Grid, player: int, ev: Evaluator, maxDepth: int, ls: seq<Leaf>)
    requires IsState(initial)
  {
    ls != [] ==> AllLeaves(initial, player, ev, maxDepth, ls[..|ls| - 1]) && GoodLeaf(initial, player, ev, maxDepth, ls[|ls| - 1])
  }

  lemma {:induction false} AllLeavesMembers(initial: Grid, player: int, ev: Evaluator, maxDepth: int, ls: seq<Leaf>)
    requires IsState(initial)
    ensures AllLeaves(initial, player, ev, maxDepth, ls) <==> forall l :: l in ls ==> GoodLeaf(initial, player, ev, maxDepth, l)
  {
    if ls != [] {
      var init := ls[..|ls| - 1];
      var last := ls[|ls| - 1];
      AllLeavesMembers(initial, player, ev, maxDepth, init);
      assert ls == init + [last];
      if AllLeaves(initial, player, ev, maxDepth, ls) {
        forall l | l in ls ensures GoodLeaf(initial, player, ev, maxDepth, l) {
          if l != last {
            assert l in init;
          }
        }
      }
      if forall l :: l in ls ==> GoodLeaf(initial, player, ev, maxDepth, l) {
        assert forall l :: l in init ==> l in ls;
        assert last in ls;
      }
    }
  }

  lemma AllLeavesSnoc(initial: Grid, player: int, ev: Evaluator, maxDepth: int, ls: seq<Leaf>, l: Leaf)
    requires IsState(initial) && AllLeaves(initial, player, ev, maxDepth, ls)
    requires GoodLeaf(initial, player, ev, maxDepth, l)
    ensures AllLeaves(initial, player, ev, maxDepth, ls + [l])
  {
    assert (ls + [l])[..|ls|] == ls;
  }

  /** The update of `best_score` and `best_action` for one scored leaf. */
  method RecordLeaf(bestScore: Option<int>, bestAction: Option<int>, score: int, path: seq<int>)
    returns (newScore: Option<int>, newAction: Option<int>)
    ensures Best(newScore, newAction) == Record(Best(bestScore, bestAction), Leaf(score, path))
  {
    newScore, newAction := bestScore, bestAction;
    if bestScore.None? || score > bestScore.value {
      newScore := Some(score);
      if path != [] {
        newAction := Some(path[0]);
      }
    }
  }

  /** A popped entry at the bound or at a terminal state makes a good leaf. */
  lemma LeafIsGood(initial: Grid, player: int, ev: Evaluator, maxDepth: int, e: Entry, score: int)
    requires IsState(initial) && GoodEntry(initial, player, ev, Depth(maxDepth), e)
    requires |e.path| >= maxDepth || IsTerminal(e.state)
    requires score == Score(ev, e.state, player)
    ensures GoodLeaf(initial, player, ev, maxDepth, Leaf(score, e.path))
  {
  }

  /** A leaf with an empty path is the initial state, so it exists only
      when the bound is 0 or less or the initial state is terminal. */
  lemma LeafBelowRoot(initial: Grid, player: int, ev: Evaluator, maxDepth: int, l: Leaf)
    requires IsState(initial) && GoodLeaf(initial, player, ev, maxDepth, l)
    requires maxDepth >= 1 && !IsTerminal(initial)
    ensures l.path != []
  {
  }
}
