/** The Connect Four players built on the multi-way trees: the `play`
    methods of src/ai/decision_tree.py, ai/decisision_tree.py and
    ai/decisision_tree_connect4.py, the mode checks of the
    ai/decisision_tree.py wrapper, and the board-to-row encoding the trees
    are queried with.  Each player sorts the candidate columns by the
    predicted outcome and draws at random from the first non-empty group;
    the draw is a nondeterministic choice. */
module TreePlay {
  import opened Outcomes
  import opened Grids
  import opened DecisionData
  import opened MultiwayTree
  import SrcRules

  // ---------------------------------------------------------------------
  // Preference among groups of columns

  /** `col` is drawn from the first non-empty group of `tiers`, or from
      `fallback` when every group is empty. */
  predicate Prefers(tiers: seq<seq<int>>, fallback: seq<int>, col: int)
  {
    if tiers == [] then col in fallback
    else if tiers[0] != [] then col in tiers[0]
    else Prefers(tiers[1..], fallback, col)
  }

  /** When every group and the fallback hold candidates only, the
      preferred column is a candidate. */
  lemma {:induction false} PrefersCandidate(tiers: seq<seq<int>>, fallback: seq<int>, pool: seq<int>, col: int)
    requires forall i, c :: 0 <= i < |tiers| && c in tiers[i] ==> c in pool
    requires forall c :: c in fallback ==> c in pool
    requires Prefers(tiers, fallback, col)
    ensures col in pool
  {
    if tiers != [] && tiers[0] == [] {
      PrefersCandidate(tiers[1..], fallback, pool, col);
    }
  }

  /** `random.choice` on a non-empty list: any of its elements. */
  method Choose(xs: seq<int>) returns (c: int)
    requires xs != []
    ensures c in xs
  {
    var i :| 0 <= i < |xs|;
    c := xs[i];
  }

  /** The `if best_moves: ... elif average_moves: ... elif worst_moves:`
      cascade: a random column of the first non-empty group, else of the
      fallback list, else nothing. */
  method Draw(best: seq<int>, average: seq<int>, worst: seq<int>, fallback: seq<int>) returns (r: Option<int>)
    ensures r.None? <==> best == [] && average == [] && worst == [] && fallback == []
    ensures r.Some? ==> Prefers([best, average, worst], fallback, r.value)
  {
    ghost var tiers := [best, average, worst];
    assert tiers[1..] == [average, worst] && tiers[1..][1..] == [worst] && tiers[1..][1..][1..] == [];
    var c := 0;
    if best != [] {
      c := Choose(best);
      assert Prefers(tiers, fallback, c);
    } else if average != [] {
      c := Choose(average);
      assert Prefers(tiers[1..], fallback, c);
    } else if worst != [] {
      c := Choose(worst);
      assert Prefers(tiers[1..][1..], fallback, c);
      assert Prefers(tiers[1..], fallback, c);
    } else if fallback != [] {
      c := Choose(fallback);
      assert Prefers(tiers[1..][1..][1..], fallback, c);
      assert Prefers(tiers[1..][1..], fallback, c);
      assert Prefers(tiers[1..], fallback, c);
    } else {
      r := None;
      return;
    }
    r := Some(c);
  }

  // ---------------------------------------------------------------------
  // DecisionTree.play of src/ai/decision_tree.py

  /** The plays whose prediction is `k`, in order: `prediction_dict[k]`. */
  function Tagged(plays: seq<int>, preds: seq<Option<Value>>, k: Option<Value>): (ps: seq<int>)
    requires |plays| == |preds|
    ensures forall c :: c in ps ==> c in plays
  {
    if plays == [] then []
    else
      var i := |plays| - 1;
      var init := Tagged(plays[..i], preds[..i], k);
      if preds[i] == k then init + [plays[i]] else init
  }

  /** The dict of play lists by prediction, filled one play at a time. */
  function Grouped(plays: seq<int>, preds: seq<Option<Value>>): map<Option<Value>, seq<int>>
    requires |plays| == |preds|
  {
    if plays == [] then map[]
    else
      var i := |plays| - 1;
      var d := Grouped(plays[..i], preds[..i]);
      var k := preds[i];
      d[k := (if k in d then d[k] else []) + [plays[i]]]
  }

  /** The dict holds exactly the predictions that occur, each with its
      plays in order. */
  lemma {:induction false} GroupedIsTagged(plays: seq<int>, preds: seq<Option<Value>>)
    requires |plays| == |preds|
    ensures forall k :: k in Grouped(plays, preds) <==> Tagged(plays, preds, k) != []
    ensures forall k :: k in Grouped(plays, preds) ==> Grouped(plays, preds)[k] == Tagged(plays, preds, k)
  {
    if plays != [] {
      var i := |plays| - 1;
      GroupedIsTagged(plays[..i], preds[..i]);
    }
  }

  /** `DecisionTree.play`: the possible plays, each with the prediction for
      the board it leads to, are grouped by prediction; a play is drawn
      from the WIN group if there is one, else the DRAW group, else the
      LOSS group, else from all plays.  Drawing from no plays raises. */
  method DictPlay(plays: seq<int>, preds: seq<Option<Value>>, win: Value, draw: Value, loss: Value) returns (r: Result<int, string>)
    requires |plays| == |preds|
    ensures r.Ok? <==> plays != []
    ensures r.Ok? ==> r.value in plays
    ensures r.Ok? ==> Prefers([Tagged(plays, preds, Some(win)), Tagged(plays, preds, Some(draw)), Tagged(plays, preds, Some(loss))], plays, r.value)
  {
    var dict: map<Option<Value>, seq<int>> := map[];
    for i := 0 to |plays|
      invariant dict == Grouped(plays[..i], preds[..i])
    {
      assert plays[..i + 1][..i] == plays[..i] && preds[..i + 1][..i] == preds[..i];
      if preds[i] !in dict {
        dict := dict[preds[i] := []];
      }
      dict := dict[preds[i] := dict[preds[i]] + [plays[i]]];
    }
    assert plays[..|plays|] == plays && preds[..|preds|] == preds;
    GroupedIsTagged(plays, preds);
    var best := if Some(win) in dict then dict[Some(win)] else [];
    var average := if Some(draw) in dict then dict[Some(draw)] else [];
    var worst := if Some(loss) in dict then dict[Some(loss)] else [];
    var c := Draw(best, average, worst, plays);
    if c.Some? {
      PrefersCandidate([best, average, worst], plays, plays, c.value);
      r := Ok(c.value);
    } else {
      r := Err("IndexError: Cannot choose from an empty sequence");
    }
  }

  // ---------------------------------------------------------------------
  // The board as a dataset row

  /** `replace({0: 'b', 1: 'x', 2: 'o'})` on one cell. */
  function Symbol(v: int): Value
  {
    if v == 0 then Str("b") else if v == 1 then Str("x") else if v == 2 then Str("o") else Num(v)
  }

  /** The cell a symbol stands for. */
  function CellOf(s: Value): int
  {
    match s
    case Num(n) => n
    case Str(t) => if t == "b" then 0 else if t == "x" then 1 else if t == "o" then 2 else -1
  }

  /** No two cell values share a symbol. */
  lemma SymbolRoundTrip(v: int)
    ensures CellOf(Symbol(v)) == v
  {
  }

  /** `_map_board_to_row` (and `map_board_to_csv_row`): the board flattened
      row by row, each cell replaced by its symbol. */
  function MapBoardToRow(g: Grid): (row: seq<Value>)
    ensures |row| == |Flatten(g)|
    ensures forall i :: 0 <= i < |row| ==> CellOf(row[i]) == Flatten(g)[i]
  {
    var cells := Flatten(g);
    seq(|cells|, i requires 0 <= i < |cells| => Symbol(cells[i]))
  }

  /** On a 6 x 7 board the row has 42 values and cell (r, c) is at index
      `7 * r + c`. */
  lemma BoardRowIndex(g: Grid, r: nat, c: nat)
    requires SrcRules.IsBoard(g) && r < SrcRules.ROWS && c < SrcRules.COLUMNS
    ensures |MapBoardToRow(g)| == 42
    ensures 7 * r + c < 42 && MapBoardToRow(g)[7 * r + c] == Symbol(g[r][c])
  {
    FlattenIndex(g, 6, 7, r, c);
    OffsetIsProduct(r, 7);
    OffsetIsProduct(6, 7);
  }

  // ---------------------------------------------------------------------
  // The DecisionTree wrapper of ai/decisision_tree.py

  /** A wrapper: its mode and the tree it loaded or trained. */
  datatype Agent = Agent(mode: string, model: Node)

  /** `__init__` and `initialize_model`: an iris or a connect4 model,
      any other mode raises.  Loading or training the models is file I/O,
      so the two trees are parameters. */
  function Initialize(mode: string, iris: Node, connect4: Node): (r: Result<Agent, string>)
    ensures r.Ok? <==> mode == "iris" || mode == "connect4"
    ensures r.Ok? ==> r.value.mode == mode
    ensures r.Ok? ==> r.value.model == if mode == "iris" then iris else connect4
  {
    if mode == "iris" then Ok(Agent(mode, iris))
    else if mode == "connect4" then Ok(Agent(mode, connect4))
    else Err("ValueError: Mode must be either 'iris' or 'connect4'")
  }

  /** The tree's prediction for the board after the AI drops a piece in
      `col` (`simulate_move` then `predict`). */
  function Prediction(g: Grid, t: Node, piece: int, col: int): Result<Option<Value>, string>
    requires SrcRules.IsBoard(g) && 0 <= col < SrcRules.COLUMNS
  {
    Walk(MapBoardToRow(SrcRules.Simulated(g, piece, col)), t)
  }

  predicate Columns(cols: seq<int>)
  {
    forall i :: 0 <= i < |cols| ==> 0 <= cols[i] < SrcRules.COLUMNS
  }

  /** The columns among `cols`, in order, predicted to end in `outcome`. */
  function Tier(g: Grid, t: Node, piece: int, cols: seq<int>, outcome: string): (ts: seq<int>)
    requires SrcRules.IsBoard(g) && Columns(cols)
    ensures forall c :: c in ts ==> c in cols
  {
    if cols == [] then []
    else
      var i := |cols| - 1;
      var init := Tier(g, t, piece, cols[..i], outcome);
      if Prediction(g, t, piece, cols[i]) == Ok(Some(Str(outcome))) then init + [cols[i]] else init
  }

  /** No prediction for these columns raises. */
  predicate AllPredict(g: Grid, t: Node, piece: int, cols: seq<int>)
    requires SrcRules.IsBoard(g) && Columns(cols)
  {
    forall i :: 0 <= i < |cols| ==> Prediction(g, t, piece, cols[i]).Ok?
  }

  /** Where one prediction puts its column: 'loss' in the first group,
      'draw' in the second, 'win' in the third; any other prediction drops
      it. */
  function Place(groups: (seq<int>, seq<int>, seq<int>), p: Option<Value>, col: int): (seq<int>, seq<int>, seq<int>)
  {
    if p == Some(Str("win")) then (groups.0, groups.1, groups.2 + [col])
    else if p == Some(Str("draw")) then (groups.0, groups.1 + [col], groups.2)
    else if p == Some(Str("loss")) then (groups.0 + [col], groups.1, groups.2)
    else groups
  }

  /** The three groups after the columns of `cols` in order, or the error
      of the first prediction that raises. */
  function Sorted(g: Grid, t: Node, piece: int, cols: seq<int>): Result<(seq<int>, seq<int>, seq<int>), string>
    requires SrcRules.IsBoard(g) && Columns(cols)
  {
    if cols == [] then Ok(([], [], []))
    else
      var i := |cols| - 1;
      var init := Sorted(g, t, piece, cols[..i]);
      if init.Err? then init
      else
        var p := Prediction(g, t, piece, cols[i]);
        if p.Err? then Err(p.error) else Ok(Place(init.value, p.value, cols[i]))
  }

  /** All predictions of a list succeed when those of its first part and
      the last one do. */
  lemma AllPredictSnoc(g: Grid, t: Node, piece: int, cols: seq<int>)
    requires SrcRules.IsBoard(g) && Columns(cols) && cols != []
    ensures AllPredict(g, t, piece, cols) <==>
      AllPredict(g, t, piece, cols[..|cols| - 1]) && Prediction(g, t, piece, cols[|cols| - 1]).Ok?
  {
    var i := |cols| - 1;
    assert forall j :: 0 <= j < i ==> cols[..i][j] == cols[j];
  }

  /** There are groups exactly when no prediction raises. */
  lemma {:induction false} SortedIffAllPredict(g: Grid, t: Node, piece: int, cols: seq<int>)
    requires SrcRules.IsBoard(g) && Columns(cols)
    ensures Sorted(g, t, piece, cols).Ok? <==> AllPredict(g, t, piece, cols)
  {
    if cols != [] {
      SortedIffAllPredict(g, t, piece, cols[..|cols| - 1]);
      AllPredictSnoc(g, t, piece, cols);
    }
  }

  /** The groups are the columns predicted 'loss', 'draw' and 'win'. */
  lemma {:induction false} SortedIsTiers(g: Grid, t: Node, piece: int, cols: seq<int>)
    requires SrcRules.IsBoard(g) && Columns(cols) && Sorted(g, t, piece, cols).Ok?
    ensures Sorted(g, t, piece, cols).value == (Tier(g, t, piece, cols, "loss"), Tier(g, t, piece, cols, "draw"), Tier(g, t, piece, cols, "win"))
  {
    if cols != [] {
      SortedIsTiers(g, t, piece, cols[..|cols| - 1]);
    }
  }

  /** Once a prediction raises, the later columns do not matter. */
  lemma {:induction false} SortedStopsAtError(g: Grid, t: Node, piece: int, cols: seq<int>, j: nat)
    requires SrcRules.IsBoard(g) && Columns(cols) && j <= |cols| && Sorted(g, t, piece, cols[..j]).Err?
    ensures Sorted(g, t, piece, cols) == Sorted(g, t, piece, cols[..j])
    decreases |cols|
  {
    if j < |cols| {
      var i := |cols| - 1;
      assert cols[..i][..j] == cols[..j];
      SortedStopsAtError(g, t, piece, cols[..i], j);
    } else {
      assert cols[..j] == cols;
    }
  }

  /** The loop over the available columns of both `play` methods: the
      columns predicted 'loss', 'draw' and 'win' for the opponent, in
      order; a prediction that raises ends the loop. */
  method SortMoves(g: Grid, t: Node, piece: int, cols: seq<int>) returns (r: Result<(seq<int>, seq<int>, seq<int>), string>)
    requires SrcRules.IsBoard(g) && Columns(cols)
    ensures r == Sorted(g, t, piece, cols)
    ensures r.Ok? <==> AllPredict(g, t, piece, cols)
    ensures r.Ok? ==> r.value == (Tier(g, t, piece, cols, "loss"), Tier(g, t, piece, cols, "draw"), Tier(g, t, piece, cols, "win"))
  {
    SortedIffAllPredict(g, t, piece, cols);
    if Sorted(g, t, piece, cols).Ok? {
      SortedIsTiers(g, t, piece, cols);
    }
    var best, average, worst := [], [], [];
    for i := 0 to |cols|
      invariant Sorted(g, t, piece, cols[..i]) == Ok((best, average, worst))
    {
      var col := cols[i];
      var prediction := Prediction(g, t, piece, col);
      assert cols[..i + 1][..i] == cols[..i];
      if prediction.Err? {
        SortedStopsAtError(g, t, piece, cols, i + 1);
        return Err(prediction.error);
      }
      if prediction.value == Some(Str("win")) {
        worst := worst + [col];
      } else if prediction.value == Some(Str("draw")) {
        average := average + [col];
      } else if prediction.value == Some(Str("loss")) {
        best := best + [col];
      }
    }
    assert cols[..|cols|] == cols;
    r := Ok((best, average, worst));
  }

  /** The groups in order of preference: a predicted loss for the opponent
      first, then a draw, then a win. */
  function Tiers(g: Grid, t: Node, piece: int, cols: seq<int>): seq<seq<int>>
    requires SrcRules.IsBoard(g) && Columns(cols)
  {
    [Tier(g, t, piece, cols, "loss"), Tier(g, t, piece, cols, "draw"), Tier(g, t, piece, cols, "win")]
  }

  /** The available columns as a list; `available_moves` returns the
      integer -1 on a full top row, which the loop cannot iterate over. */
  function AvailableList(g: Grid): (r: Result<seq<int>, string>)
    requires SrcRules.IsBoard(g)
    ensures r.Ok? ==> Columns(r.value) && r.value != []
  {
    var m := SrcRules.AvailableMoves(g);
    if m.MinusOne? then Err("TypeError: 'int' object is not iterable")
    else
      assert forall i :: 0 <= i < |m.cols| ==> m.cols[i] in m.cols;
      Ok(m.cols)
  }

  /** `DecisionTree.play` of ai/decisision_tree.py: only a connect4 model
      plays; a column is drawn from those predicted 'loss', else 'draw',
      else 'win', else from all available columns.  The piece the AI drops
      is a parameter. */
  method Play(agent: Agent, g: Grid, aiPiece: int) returns (r: Result<int, string>)
    requires SrcRules.IsBoard(g)
    ensures agent.mode != "connect4" ==> r == Err("RuntimeError: This model was initialized for iris classification, not connect4")
    ensures r.Ok? <==> agent.mode == "connect4" && AvailableList(g).Ok? && AllPredict(g, agent.model, aiPiece, AvailableList(g).value)
    ensures r.Ok? ==>
      var cols := AvailableList(g).value;
      && r.value in cols
      && Prefers(Tiers(g, agent.model, aiPiece, cols), cols, r.value)
  {
    if agent.mode != "connect4" {
      return Err("RuntimeError: This model was initialized for iris classification, not connect4");
    }
    var moves := AvailableList(g);
    if moves.Err? {
      return Err(moves.error);
    }
    var cols := moves.value;
    var sorted := SortMoves(g, agent.model, aiPiece, cols);
    if sorted.Err? {
      return Err(sorted.error);
    }
    var (best, average, worst) := sorted.value;
    var choice := Draw(best, average, worst, cols);
    DrawnFromTiers(g, agent.model, aiPiece, cols, best, average, worst, choice);
    r := Ok(choice.value);
  }

  /** The draw over the sorted groups of the available columns picks an
      available column that the groups prefer. */
  lemma DrawnFromTiers(g: Grid, t: Node, piece: int, cols: seq<int>, best: seq<int>, average: seq<int>, worst: seq<int>, choice: Option<int>)
    requires SrcRules.IsBoard(g) && Columns(cols) && cols != []
    requires (best, average, worst) == (Tier(g, t, piece, cols, "loss"), Tier(g, t, piece, cols, "draw"), Tier(g, t, piece, cols, "win"))
    requires choice.None? <==> best == [] && average == [] && worst == [] && cols == []
    requires choice.Some? ==> Prefers([best, average, worst], cols, choice.value)
    ensures choice.Some? && choice.value in cols && Prefers(Tiers(g, t, piece, cols), cols, choice.value)
  {
    var tiers := Tiers(g, t, piece, cols);
    assert tiers == [best, average, worst];
    PrefersCandidate(tiers, cols, cols, choice.value);
  }

  /** A connect4 model trained on 42 features never raises on a board with
      a free column, so `play` always answers an available column. */
  lemma SoundModelPlays(agent: Agent, g: Grid, aiPiece: int, h: nat, ls: set<Value>)
    requires SrcRules.IsBoard(g) && agent.mode == "connect4" && Sound(agent.model, 42, h, ls)
    requires exists c :: 0 <= c < SrcRules.COLUMNS && g[SrcRules.TOP][c] == 0
    ensures AvailableList(g).Ok? && AllPredict(g, agent.model, aiPiece, AvailableList(g).value)
  {
    var cols := AvailableList(g).value;
    forall i | 0 <= i < |cols| ensures Prediction(g, agent.model, aiPiece, cols[i]).Ok? {
      var b := SrcRules.Simulated(g, aiPiece, cols[i]);
      BoardRowIndex(b, 0, 0);
      WalkSound(MapBoardToRow(b), agent.model, 42, h, ls);
    }
  }

  /** `DecisionTree.play` of ai/decisision_tree_connect4.py: the same
      preference without the last resort, so it answers `None` when no
      column is predicted 'loss', 'draw' or 'win'. */
  method PlayConnect4(model: Node, g: Grid, aiPiece: int) returns (r: Result<Option<int>, string>)
    requires SrcRules.IsBoard(g)
    ensures r.Ok? <==> AvailableList(g).Ok? && AllPredict(g, model, aiPiece, AvailableList(g).value)
    ensures r.Ok? ==>
      var tiers := Tiers(g, model, aiPiece, AvailableList(g).value);
      && (r.value.None? <==> tiers == [[], [], []])
      && (r.value.Some? ==> r.value.value in AvailableList(g).value && Prefers(tiers, [], r.value.value))
  {
    var moves := AvailableList(g);
    if moves.Err? {
      return Err(moves.error);
    }
    var cols := moves.value;
    var sorted := SortMoves(g, model, aiPiece, cols);
    if sorted.Err? {
      return Err(sorted.error);
    }
    var (best, average, worst) := sorted.value;
    ghost var tiers := Tiers(g, model, aiPiece, cols);
    assert tiers == [best, average, worst];
    var choice := Draw(best, average, worst, []);
    if choice.Some? {
      PrefersCandidate(tiers, [], cols, choice.value);
    }
    r := Ok(choice);
  }
}
