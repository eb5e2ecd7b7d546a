/** `DecisionTreeClassifier` of src/ai/decision_tree.py: a multi-way tree
    whose nodes keep their children in a dict keyed by feature value.  The
    best feature is the first of greatest information gain, the search
    starting from minus infinity; a leaf holds the first most common label;
    prediction walks the dict down in a loop. */
module DictTree {
  import opened Outcomes
  import opened DecisionData
  import opened MultiwayTree

  /** The gain of every feature, in column order. */
  function Gains(imp: Impurity, rows: seq<Sample<Value>>, n: nat): (s: seq<Option<real>>)
    ensures |s| == n && forall f :: 0 <= f < n ==> s[f] == Some(DiscreteGain(imp, rows, f))
  {
    seq(n, f requires 0 <= f < n => Some(DiscreteGain(imp, rows, f)))
  }

  /** The feature `_get_best_split` keeps; `None` stands for the empty dict
      it returns when there are no features. */
  function BestFeature(imp: Impurity, rows: seq<Sample<Value>>, n: nat): (r: Option<nat>)
    ensures r.Some? ==> r.value < n
  {
    FirstBest(Gains(imp, rows, n))
  }

  /** The feature kept is the first of greatest gain, and there is one
      exactly when there is a feature. */
  lemma BestFeatureIsFirstMax(imp: Impurity, rows: seq<Sample<Value>>, n: nat)
    ensures var r := BestFeature(imp, rows, n);
      && (r.None? <==> n == 0)
      && (r.Some? ==> forall f :: 0 <= f < n ==> DiscreteGain(imp, rows, f) <= DiscreteGain(imp, rows, r.value))
      && (r.Some? ==> forall f :: 0 <= f < r.value ==> DiscreteGain(imp, rows, f) < DiscreteGain(imp, rows, r.value))
  {
    var s := Gains(imp, rows, n);
    FirstBestIsFirstMax(s);
    if n > 0 {
      assert s[0].Some?;
    }
  }

  /** `_get_best_split`: one pass over the features keeping the running
      maximum, replaced only by a strictly greater gain.  `None` for `best`
      plays the part of the initial `-float("inf")`. */
  method GetBestSplit(imp: Impurity, rows: seq<Sample<Value>>, n: nat) returns (best: Option<nat>)
    ensures best == BestFeature(imp, rows, n)
  {
    ghost var s := Gains(imp, rows, n);
    best := None;
    var maxGain := 0.0;
    for f := 0 to n
      invariant best == FirstBest(s[..f])
      invariant best.Some? ==> best.value < f && maxGain == DiscreteGain(imp, rows, best.value)
    {
      var gain := DiscreteGain(imp, rows, f);
      FirstBestSnoc(s[..f], Some(gain));
      assert s[..f + 1] == s[..f] + [Some(gain)];
      if best.None? || gain > maxGain {
        best := Some(f);
        maxGain := gain;
      }
    }
    assert s[..n] == s;
  }

  /** A leaf: the first most common label (`_calculate_leaf_value`), which
      `max` cannot find among no labels. */
  function LeafOf(rows: seq<Sample<Value>>): (r: Result<Node, string>)
    ensures r.Ok? <==> rows != []
    ensures r.Ok? ==> r.value.Leaf? && IsMode(Labels(rows), r.value.value)
  {
    if rows == [] then Err("ValueError: max() arg is an empty sequence")
    else Ok(Leaf(FirstMode(Labels(rows))))
  }

  /** The tests `_build_tree` makes before it looks for a split. */
  predicate MaySplit(rows: seq<Sample<Value>>, depth: nat, maxDepth: nat, minSamples: int)
  {
    |rows| >= minSamples && depth <= maxDepth && !IsPure(Labels(rows))
  }

  /** `_build_tree`: a node may split while it has at least `minSamples`
      rows, is at depth at most `maxDepth` and its labels are not pure; it
      then splits on the best feature if that gains something, with one
      child per value of the feature, and otherwise becomes a leaf.  With no
      feature at all the best split is the empty dict and reading its
      `info_gain` raises. */
  function Build(rows: seq<Sample<Value>>, n: nat, depth: nat, maxDepth: nat, minSamples: int, imp: Impurity): Result<Node, string>
    requires depth <= maxDepth + 1
    decreases maxDepth + 1 - depth, 0
  {
    if MaySplit(rows, depth, maxDepth, minSamples) then
      var best := BestFeature(imp, rows, n);
      if best.None? then Err("KeyError: 'info_gain'")
      else if DiscreteGain(imp, rows, best.value) > 0.0 then
        var f := best.value;
        var kids := BuildKids(Groups(rows, f), n, depth + 1, maxDepth, minSamples, imp);
        if kids.Err? then Err(kids.error) else Ok(Branch(f, Unique(Cells(rows, f)), kids.value))
      else LeafOf(rows)
    else LeafOf(rows)
  }

  /** The children of a split, built in key order; the first one that raises
      ends the dict comprehension. */
  function BuildKids(gs: seq<seq<Sample<Value>>>, n: nat, depth: nat, maxDepth: nat, minSamples: int, imp: Impurity): (r: Result<seq<Node>, string>)
    requires depth <= maxDepth + 1
    ensures r.Ok? ==> |r.value| == |gs|
    decreases maxDepth + 1 - depth, 1, |gs|
  {
    if gs == [] then Ok([])
    else
      var head := Build(gs[0], n, depth, maxDepth, minSamples, imp);
      if head.Err? then Err(head.error)
      else
        var tail := BuildKids(gs[1..], n, depth, maxDepth, minSamples, imp);
        if tail.Err? then Err(tail.error) else Ok([head.value] + tail.value)
  }

  /** The children are the trees built from the groups, one each: the
      loop raises exactly when one of them raises. */
  lemma {:induction false} KidsArePointwise(gs: seq<seq<Sample<Value>>>, n: nat, depth: nat, maxDepth: nat, minSamples: int, imp: Impurity)
    requires depth <= maxDepth + 1
    ensures BuildKids(gs, n, depth, maxDepth, minSamples, imp).Ok? <==> forall i :: 0 <= i < |gs| ==> Build(gs[i], n, depth, maxDepth, minSamples, imp).Ok?
    ensures BuildKids(gs, n, depth, maxDepth, minSamples, imp).Ok? ==> forall i :: 0 <= i < |gs| ==> BuildKids(gs, n, depth, maxDepth, minSamples, imp).value[i] == Build(gs[i], n, depth, maxDepth, minSamples, imp).value
    decreases |gs|
  {
    if gs != [] {
      KidsArePointwise(gs[1..], n, depth, maxDepth, minSamples, imp);
      forall i | 0 < i < |gs|
        ensures gs[1..][i - 1] == gs[i]
      {
      }
    }
  }

  /** A built tree is sound: one child per distinct key, features below
      `n`, at most `maxDepth + 1 - depth` tests on a path, and every leaf
      label a label of the dataset.  Building never raises on a non-empty
      dataset with at least one feature. */
  lemma {:induction false} BuildSound(rows: seq<Sample<Value>>, n: nat, depth: nat, maxDepth: nat, minSamples: int, imp: Impurity, ls: set<Value>)
    requires depth <= maxDepth + 1 && Elements(Labels(rows)) <= ls
    ensures rows != [] && n > 0 ==> Build(rows, n, depth, maxDepth, minSamples, imp).Ok?
    ensures Build(rows, n, depth, maxDepth, minSamples, imp).Ok? ==>
      Sound(Build(rows, n, depth, maxDepth, minSamples, imp).value, n, maxDepth + 1 - depth, ls)
    decreases maxDepth + 1 - depth, 2
  {
    var r := Build(rows, n, depth, maxDepth, minSamples, imp);
    var best := BestFeature(imp, rows, n);
    BestFeatureIsFirstMax(imp, rows, n);
    if MaySplit(rows, depth, maxDepth, minSamples) && best.Some? && DiscreteGain(imp, rows, best.value) > 0.0 {
      BranchSound(rows, n, depth, maxDepth, minSamples, imp, ls, best.value);
    } else if r.Ok? {
      assert r == LeafOf(rows);
      assert FirstMode(Labels(rows)) in Elements(Labels(rows));
    }
  }

  /** The split on feature `f` below depth `maxDepth`: its children are
      built without raising, and the node they make is sound. */
  lemma {:induction false} BranchSound(rows: seq<Sample<Value>>, n: nat, depth: nat, maxDepth: nat, minSamples: int, imp: Impurity, ls: set<Value>, f: nat)
    requires depth <= maxDepth && Elements(Labels(rows)) <= ls && f < n
    ensures var kids := BuildKids(Groups(rows, f), n, depth + 1, maxDepth, minSamples, imp);
      && kids.Ok?
      && Sound(Branch(f, Unique(Cells(rows, f)), kids.value), n, maxDepth + 1 - depth, ls)
    decreases maxDepth + 1 - depth, 1
  {
    var gs := Groups(rows, f);
    forall i | 0 <= i < |gs|
      ensures gs[i] != [] && Elements(Labels(gs[i])) <= ls
    {
      GroupWithin(rows, f, i);
    }
    KidsBranchSound(gs, Unique(Cells(rows, f)), f, n, depth, maxDepth, minSamples, imp, ls);
  }

  /** The children of a split on feature `f`, built from non-empty groups
      with labels in `ls`: none raises, and with distinct keys, one per
      group, the node they make is sound. */
  lemma {:induction false} KidsBranchSound(gs: seq<seq<Sample<Value>>>, keys: seq<Value>, f: nat, n: nat, depth: nat, maxDepth: nat, minSamples: int, imp: Impurity, ls: set<Value>)
    requires depth <= maxDepth && f < n && |keys| == |gs| && Distinct(keys)
    requires forall i :: 0 <= i < |gs| ==> gs[i] != [] && Elements(Labels(gs[i])) <= ls
    ensures var kids := BuildKids(gs, n, depth + 1, maxDepth, minSamples, imp);
      kids.Ok? && Sound(Branch(f, keys, kids.value), n, maxDepth + 1 - depth, ls)
    decreases maxDepth + 1 - depth, 0
  {
    BuildKidsSound(gs, n, depth + 1, maxDepth, minSamples, imp, ls);
    var r := BuildKids(gs, n, depth + 1, maxDepth, minSamples, imp);
    assert r.Ok? && |r.value| == |gs|;
    BranchIsSound(f, keys, r.value, n, maxDepth + 1 - (depth + 1), maxDepth + 1 - depth, ls);
  }

  lemma BuildKidsSound(gs: seq<seq<Sample<Value>>>, n: nat, depth: nat, maxDepth: nat, minSamples: int, imp: Impurity, ls: set<Value>)
    requires depth <= maxDepth + 1
    requires forall i :: 0 <= i < |gs| ==> Elements(Labels(gs[i])) <= ls
    ensures n > 0 && (forall i :: 0 <= i < |gs| ==> gs[i] != []) ==> BuildKids(gs, n, depth, maxDepth, minSamples, imp).Ok?
    ensures BuildKids(gs, n, depth, maxDepth, minSamples, imp).Ok? ==>
      forall i :: 0 <= i < |gs| ==> Sound(BuildKids(gs, n, depth, maxDepth, minSamples, imp).value[i], n, maxDepth + 1 - depth, ls)
    decreases maxDepth + 1 - depth, 3
  {
    forall i | 0 <= i < |gs|
      ensures n > 0 && gs[i] != [] ==> Build(gs[i], n, depth, maxDepth, minSamples, imp).Ok?
      ensures Build(gs[i], n, depth, maxDepth, minSamples, imp).Ok? ==>
        Sound(Build(gs[i], n, depth, maxDepth, minSamples, imp).value, n, maxDepth + 1 - depth, ls)
    {
      BuildSound(gs[i], n, depth, maxDepth, minSamples, imp, ls);
    }
    KidsArePointwise(gs, n, depth, maxDepth, minSamples, imp);
  }

  /** An internal node is built only when the node may split and its
      feature is the first of greatest gain, a gain above zero; its keys are
      the feature's distinct values in order of appearance. */
  lemma SplitOnlyWhen(rows: seq<Sample<Value>>, n: nat, depth: nat, maxDepth: nat, minSamples: int, imp: Impurity)
    requires depth <= maxDepth + 1
    requires Build(rows, n, depth, maxDepth, minSamples, imp).Ok?
    ensures var t := Build(rows, n, depth, maxDepth, minSamples, imp).value;
      t.Branch? ==>
        && |rows| >= minSamples && depth <= maxDepth && !IsPure(Labels(rows))
        && BestFeature(imp, rows, n) == Some(t.feature)
        && DiscreteGain(imp, rows, t.feature) > 0.0
        && t.keys == Unique(Cells(rows, t.feature))
        && |t.kids| == |Groups(rows, t.feature)|
  {
  }

  /** Otherwise the node is a leaf with the first most common label; a node
      that may split but has no feature raises `KeyError`. */
  lemma LeafOtherwise(rows: seq<Sample<Value>>, n: nat, depth: nat, maxDepth: nat, minSamples: int, imp: Impurity)
    requires depth <= maxDepth + 1
    ensures var r := Build(rows, n, depth, maxDepth, minSamples, imp);
      && (MaySplit(rows, depth, maxDepth, minSamples) && n == 0 ==> r == Err("KeyError: 'info_gain'"))
      && (!MaySplit(rows, depth, maxDepth, minSamples) ==> r == LeafOf(rows))
      && (r.Ok? && r.value.Leaf? ==> r.value.value == FirstMode(Labels(rows)))
  {
    BestFeatureIsFirstMax(imp, rows, n);
  }

  /** `make_prediction`: walk down the dict of children while the node is
      not a leaf; a value with no child gives `None`.  The dict lookup is
      `Walk`'s first-key lookup, as the keys of a built tree are distinct. */
  method MakePrediction(x: seq<Value>, root: Node, n: nat, h: nat, ls: set<Value>) returns (r: Result<Option<Value>, string>)
    requires Sound(root, n, h, ls)
    ensures r == Walk(x, root)
  {
    var node := root;
    ghost var height := h;
    while node.Branch?
      invariant Sound(node, n, height, ls)
      invariant Walk(x, node) == Walk(x, root)
      decreases node
    {
      if node.feature >= |x| {
        return Err("KeyError");
      }
      var i := FirstIndex(node.keys, x[node.feature]);
      if i == |node.keys| {
        return Ok(None);
      }
      node := node.kids[i];
      height := height - 1;
    }
    r := Ok(Some(node.value));
  }

  /** The end-to-end promise of `fit` (which starts at depth 0, and any
      depth in range is covered) then `predict`: on a non-empty
      dataset with `n` features, a row of `n` values never raises, and its
      prediction, when there is one, is a label from the dataset. */
  lemma {:induction false} PredictsTrainingLabel(rows: seq<Sample<Value>>, n: nat, depth: nat, maxDepth: nat, minSamples: int, imp: Impurity, x: seq<Value>)
    requires rows != [] && n > 0 && |x| == n && depth <= maxDepth + 1
    ensures Build(rows, n, depth, maxDepth, minSamples, imp).Ok?
    ensures var p := Walk(x, Build(rows, n, depth, maxDepth, minSamples, imp).value);
      p.Ok? && (p.value.Some? ==> p.value.value in Labels(rows))
  {
    BuildSound(rows, n, depth, maxDepth, minSamples, imp, Elements(Labels(rows)));
    WalkGivesLabel(x, Build(rows, n, depth, maxDepth, minSamples, imp).value, n, maxDepth + 1 - depth, rows);
  }
}
