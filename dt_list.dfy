/** `DecisionTreeClassifier` of ai/decisision_tree.py, whose classifier
    ai/decisision_tree_connect4.py repeats line for line: a multi-way tree
    whose nodes keep `split_values` and `children` as parallel lists.  A
    split is kept only for a strictly positive gain, the search starting
    from zero; a leaf holds one of the most common labels, drawn at random;
    prediction recurses into the child of the first matching split value
    (`MultiwayTree.Walk`). */
module ListTree {
  import opened Outcomes
  import opened DecisionData
  import opened MultiwayTree

  /** `random.choice` over the most common labels: the draw is an index an
      outside source of randomness picks for the candidates. */
  type Pick = seq<Value> -> nat

  /** `_calculate_leaf_value`: a random one of the most common labels;
      `max` of no counts raises. */
  function LeafValue(ys: seq<Value>, pick: Pick): (r: Result<Value, string>)
    ensures r.Ok? <==> ys != []
    ensures r.Ok? ==> IsMode(ys, r.value)
  {
    if ys == [] then Err("ValueError: max() arg is an empty sequence")
    else
      var ms := Modes(ys);
      ModesAreModes(ys);
      Ok(Choice(ms, pick(ms)))
  }

  /** Every most common label is a possible leaf value: some draw picks it. */
  lemma AnyModeMayBeDrawn(ys: seq<Value>, v: Value) returns (pick: Pick)
    requires IsMode(ys, v)
    ensures LeafValue(ys, pick) == Ok(v)
  {
    var ms := Modes(ys);
    ModesAreModes(ys);
    var i := IndexOf(ms, v);
    pick := _ => i;
  }

  function IndexOf(s: seq<Value>, v: Value): (i: nat)
    requires v in s
    ensures i < |s| && s[i] == v
  {
    if s[0] == v then 0 else 1 + IndexOf(s[1..], v)
  }

  /** The gains `_get_best_split` can keep: only those above its initial
      maximum of zero. */
  function PositiveGains(imp: Impurity, rows: seq<Sample<Value>>, n: nat): (s: seq<Option<real>>)
    ensures |s| == n
    ensures forall f :: 0 <= f < n ==> s[f] == if DiscreteGain(imp, rows, f) > 0.0 then Some(DiscreteGain(imp, rows, f)) else None
  {
    seq(n, f requires 0 <= f < n => var g := DiscreteGain(imp, rows, f); if g > 0.0 then Some(g) else None)
  }

  /** The feature `_get_best_split` keeps; `None` stands for the empty dict. */
  function BestPositive(imp: Impurity, rows: seq<Sample<Value>>, n: nat): (r: Option<nat>)
    ensures r.Some? ==> r.value < n
  {
    FirstBest(PositiveGains(imp, rows, n))
  }

  /** The best split is empty exactly when no feature gains anything, and
      otherwise it is the first feature of greatest gain. */
  lemma BestPositiveIsFirstMax(imp: Impurity, rows: seq<Sample<Value>>, n: nat)
    ensures var r := BestPositive(imp, rows, n);
      && (r.None? <==> forall f :: 0 <= f < n ==> DiscreteGain(imp, rows, f) <= 0.0)
      && (r.Some? ==> DiscreteGain(imp, rows, r.value) > 0.0)
      && (r.Some? ==> forall f :: 0 <= f < n ==> DiscreteGain(imp, rows, f) <= DiscreteGain(imp, rows, r.value))
      && (r.Some? ==> forall f :: 0 <= f < r.value ==> DiscreteGain(imp, rows, f) < DiscreteGain(imp, rows, r.value))
  {
    var s := PositiveGains(imp, rows, n);
    FirstBestIsFirstMax(s);
  }

  /** `_update_best_split`: the candidate replaces the best split only when
      its gain is strictly greater than the maximum so far, and the new
      maximum is returned. */
  function UpdateBestSplit(best: Option<nat>, maxGain: real, gain: real, f: nat): (r: (Option<nat>, real))
    ensures r.1 >= maxGain && r.1 >= gain && (r.1 == maxGain || r.1 == gain)
    ensures r.0 != best ==> r.0 == Some(f) && r.1 == gain
    ensures gain > maxGain <==> r.1 > maxGain
    ensures gain > maxGain ==> r.0 == Some(f)
  {
    if gain > maxGain then (Some(f), gain) else (best, maxGain)
  }

  /** One pass of `_get_best_split`'s loop is one step of `FirstBest` over
      the positive gains, and the running maximum stays the best gain. */
  lemma UpdateIsSnoc(imp: Impurity, rows: seq<Sample<Value>>, n: nat, f: nat, best: Option<nat>, maxGain: real)
    requires f < n
    requires best == FirstBest(PositiveGains(imp, rows, n)[..f])
    requires best.None? ==> maxGain == 0.0
    requires best.Some? ==> best.value < f && maxGain == DiscreteGain(imp, rows, best.value)
    ensures var u := UpdateBestSplit(best, maxGain, DiscreteGain(imp, rows, f), f);
      && u.0 == FirstBest(PositiveGains(imp, rows, n)[..f + 1])
      && (u.0.None? ==> u.1 == 0.0)
      && (u.0.Some? ==> u.0.value <= f && u.1 == DiscreteGain(imp, rows, u.0.value))
  {
    var s := PositiveGains(imp, rows, n);
    FirstBestSnoc(s[..f], s[f]);
    assert s[..f + 1] == s[..f] + [s[f]];
    if best.Some? {
      assert s[..f][best.value] == s[best.value];
    }
  }

  /** `_get_best_split`: one pass over the features from a maximum of zero,
      the dict updated by `_update_best_split`. */
  method GetBestSplit(imp: Impurity, rows: seq<Sample<Value>>, n: nat) returns (best: Option<nat>)
    ensures best == BestPositive(imp, rows, n)
  {
    ghost var s := PositiveGains(imp, rows, n);
    best := None;
    var maxGain := 0.0;
    for f := 0 to n
      invariant best == FirstBest(s[..f])
      invariant best.None? ==> maxGain == 0.0
      invariant best.Some? ==> best.value < f && maxGain == DiscreteGain(imp, rows, best.value)
    {
      var gain := DiscreteGain(imp, rows, f);
      UpdateIsSnoc(imp, rows, n, f, best, maxGain);
      var u := UpdateBestSplit(best, maxGain, gain, f);
      best, maxGain := u.0, u.1;
    }
    assert s[..n] == s;
  }

  function LeafOf(rows: seq<Sample<Value>>, pick: Pick): (r: Result<Node, string>)
    ensures r.Ok? <==> rows != []
    ensures r.Ok? ==> r.value.Leaf? && IsMode(Labels(rows), r.value.value)
  {
    var v := LeafValue(Labels(rows), pick);
    if v.Err? then Err(v.error) else Ok(Leaf(v.value))
  }

  /** The stopping tests of `_build_tree`. */
  predicate MustStop(rows: seq<Sample<Value>>, depth: nat, maxDepth: nat, minSamples: int)
  {
    |rows| < minSamples || depth == maxDepth || IsPure(Labels(rows))
  }

  /** `_build_tree`: a leaf on too few rows, at depth `maxDepth`, on pure
      labels or when no feature gains anything; otherwise a node on the
      best feature with its distinct values as split values and one child
      per value. */
  function Build(rows: seq<Sample<Value>>, n: nat, depth: nat, maxDepth: nat, minSamples: int, imp: Impurity, pick: Pick): Result<Node, string>
    requires depth <= maxDepth
    decreases maxDepth - depth, 0
  {
    if MustStop(rows, depth, maxDepth, minSamples) then LeafOf(rows, pick)
    else
      var best := BestPositive(imp, rows, n);
      if best.None? then LeafOf(rows, pick)
      else
        var f := best.value;
        var kids := BuildKids(Groups(rows, f), n, depth + 1, maxDepth, minSamples, imp, pick);
        if kids.Err? then Err(kids.error) else Ok(Branch(f, Unique(Cells(rows, f)), kids.value))
  }

  /** The children, built in order by the loop of `_build_tree`. */
  function BuildKids(gs: seq<seq<Sample<Value>>>, n: nat, depth: nat, maxDepth: nat, minSamples: int, imp: Impurity, pick: Pick): (r: Result<seq<Node>, string>)
    requires depth <= maxDepth
    ensures r.Ok? ==> |r.value| == |gs|
    decreases maxDepth - depth, 1, |gs|
  {
    if gs == [] then Ok([])
    else
      var head := Build(gs[0], n, depth, maxDepth, minSamples, imp, pick);
      if head.Err? then Err(head.error)
      else
        var tail := BuildKids(gs[1..], n, depth, maxDepth, minSamples, imp, pick);
        if tail.Err? then Err(tail.error) else Ok([head.value] + tail.value)
  }

  /** The children are the trees built from the groups, one each: the
      loop raises exactly when one of them raises. */
  lemma {:induction false} KidsArePointwise(gs: seq<seq<Sample<Value>>>, n: nat, depth: nat, maxDepth: nat, minSamples: int, imp: Impurity, pick: Pick)
    requires depth <= maxDepth
    ensures BuildKids(gs, n, depth, maxDepth, minSamples, imp, pick).Ok? <==> forall i :: 0 <= i < |gs| ==> Build(gs[i], n, depth, maxDepth, minSamples, imp, pick).Ok?
    ensures BuildKids(gs, n, depth, maxDepth, minSamples, imp, pick).Ok? ==> forall i :: 0 <= i < |gs| ==> BuildKids(gs, n, depth, maxDepth, minSamples, imp, pick).value[i] == Build(gs[i], n, depth, maxDepth, minSamples, imp, pick).value
    decreases |gs|
  {
    if gs != [] {
      KidsArePointwise(gs[1..], n, depth, maxDepth, minSamples, imp, pick);
      forall i | 0 < i < |gs|
        ensures gs[1..][i - 1] == gs[i]
      {
      }
    }
  }

  /** A built tree is sound with at most `maxDepth - depth` tests on a path
      and leaf labels from the dataset; building never raises on a
      non-empty dataset. */
  lemma {:induction false} BuildSound(rows: seq<Sample<Value>>, n: nat, depth: nat, maxDepth: nat, minSamples: int, imp: Impurity, pick: Pick, ls: set<Value>)
    requires depth <= maxDepth && Elements(Labels(rows)) <= ls
    ensures rows != [] ==> Build(rows, n, depth, maxDepth, minSamples, imp, pick).Ok?
    ensures Build(rows, n, depth, maxDepth, minSamples, imp, pick).Ok? ==>
      Sound(Build(rows, n, depth, maxDepth, minSamples, imp, pick).value, n, maxDepth - depth, ls)
    decreases maxDepth - depth, 2
  {
    var r := Build(rows, n, depth, maxDepth, minSamples, imp, pick);
    var best := BestPositive(imp, rows, n);
    if !MustStop(rows, depth, maxDepth, minSamples) && best.Some? {
      BranchSound(rows, n, depth, maxDepth, minSamples, imp, pick, ls, best.value);
    } else if r.Ok? {
      assert r == LeafOf(rows, pick);
      assert r.value.value in Elements(Labels(rows));
    }
  }

  lemma {:induction false} BranchSound(rows: seq<Sample<Value>>, n: nat, depth: nat, maxDepth: nat, minSamples: int, imp: Impurity, pick: Pick, ls: set<Value>, f: nat)
    requires depth < maxDepth && Elements(Labels(rows)) <= ls && f < n
    ensures var kids := BuildKids(Groups(rows, f), n, depth + 1, maxDepth, minSamples, imp, pick);
      && kids.Ok?
      && Sound(Branch(f, Unique(Cells(rows, f)), kids.value), n, maxDepth - depth, ls)
    decreases maxDepth - depth, 1
  {
    var gs := Groups(rows, f);
    forall i | 0 <= i < |gs|
      ensures gs[i] != [] && Elements(Labels(gs[i])) <= ls
    {
      GroupWithin(rows, f, i);
    }
    var kids := KidsBranchSound(gs, Unique(Cells(rows, f)), f, n, depth, maxDepth, minSamples, imp, pick, ls);
  }

  /** The children of a split on feature `f`, built from non-empty groups
      with labels in `ls`: none raises, and with distinct keys, one per
      group, the node they make is sound. */
  lemma {:induction false} KidsBranchSound(gs: seq<seq<Sample<Value>>>, keys: seq<Value>, f: nat, n: nat, depth: nat, maxDepth: nat, minSamples: int, imp: Impurity, pick: Pick, ls: set<Value>) returns (kids: seq<Node>)
    requires depth < maxDepth && f < n && |keys| == |gs| && Distinct(keys)
    requires forall i :: 0 <= i < |gs| ==> gs[i] != [] && Elements(Labels(gs[i])) <= ls
    ensures BuildKids(gs, n, depth + 1, maxDepth, minSamples, imp, pick) == Ok(kids)
    ensures Sound(Branch(f, keys, kids), n, maxDepth - depth, ls)
    decreases maxDepth - depth, 0
  {
    kids := SoundKids(gs, n, depth + 1, maxDepth, minSamples, imp, pick, ls);
    BranchIsSound(f, keys, kids, n, maxDepth - (depth + 1), maxDepth - depth, ls);
  }

  /** The children built from non-empty groups with labels in `ls`, each
      sound with one test fewer than their parent's budget. */
  lemma SoundKids(gs: seq<seq<Sample<Value>>>, n: nat, depth: nat, maxDepth: nat, minSamples: int, imp: Impurity, pick: Pick, ls: set<Value>) returns (kids: seq<Node>)
    requires 0 < depth <= maxDepth
    requires forall i :: 0 <= i < |gs| ==> gs[i] != [] && Elements(Labels(gs[i])) <= ls
    ensures BuildKids(gs, n, depth, maxDepth, minSamples, imp, pick) == Ok(kids)
    ensures |kids| == |gs| && forall i :: 0 <= i < |kids| ==> Sound(kids[i], n, maxDepth - depth, ls)
    decreases maxDepth - depth, 4
  {
    BuildKidsSound(gs, n, depth, maxDepth, minSamples, imp, pick, ls);
    kids := BuildKids(gs, n, depth, maxDepth, minSamples, imp, pick).value;
  }

  lemma BuildKidsSound(gs: seq<seq<Sample<Value>>>, n: nat, depth: nat, maxDepth: nat, minSamples: int, imp: Impurity, pick: Pick, ls: set<Value>)
    requires depth <= maxDepth
    requires forall i :: 0 <= i < |gs| ==> Elements(Labels(gs[i])) <= ls
    ensures (forall i :: 0 <= i < |gs| ==> gs[i] != []) ==> BuildKids(gs, n, depth, maxDepth, minSamples, imp, pick).Ok?
    ensures BuildKids(gs, n, depth, maxDepth, minSamples, imp, pick).Ok? ==>
      forall i :: 0 <= i < |gs| ==> Sound(BuildKids(gs, n, depth, maxDepth, minSamples, imp, pick).value[i], n, maxDepth - depth, ls)
    decreases maxDepth - depth, 3
  {
    forall i | 0 <= i < |gs|
      ensures gs[i] != [] ==> Build(gs[i], n, depth, maxDepth, minSamples, imp, pick).Ok?
      ensures Build(gs[i], n, depth, maxDepth, minSamples, imp, pick).Ok? ==>
        Sound(Build(gs[i], n, depth, maxDepth, minSamples, imp, pick).value, n, maxDepth - depth, ls)
    {
      BuildSound(gs[i], n, depth, maxDepth, minSamples, imp, pick, ls);
    }
    KidsArePointwise(gs, n, depth, maxDepth, minSamples, imp, pick);
  }

  /** A node is a leaf holding one of the most common labels exactly when
      a stopping test holds or no feature gains anything; otherwise it
      splits on the first feature of greatest gain, with the feature's
      distinct values, in order of appearance, as split values. */
  lemma LeafIffStop(rows: seq<Sample<Value>>, n: nat, depth: nat, maxDepth: nat, minSamples: int, imp: Impurity, pick: Pick)
    requires depth <= maxDepth && rows != []
    ensures var t := Build(rows, n, depth, maxDepth, minSamples, imp, pick);
      && t.Ok?
      && (t.value.Leaf? <==>
           MustStop(rows, depth, maxDepth, minSamples) || forall f :: 0 <= f < n ==> DiscreteGain(imp, rows, f) <= 0.0)
      && (t.value.Leaf? ==> IsMode(Labels(rows), t.value.value))
      && (t.value.Branch? ==>
           && BestPositive(imp, rows, n) == Some(t.value.feature)
           && t.value.keys == Unique(Cells(rows, t.value.feature))
           && |t.value.kids| == |Groups(rows, t.value.feature)|)
  {
    BestPositiveIsFirstMax(imp, rows, n);
    BuildSound(rows, n, depth, maxDepth, minSamples, imp, pick, Elements(Labels(rows)));
  }

  /** The tree built from a non-empty dataset, sound with leaf labels from
      the dataset. */
  lemma SoundTree(rows: seq<Sample<Value>>, n: nat, depth: nat, maxDepth: nat, minSamples: int, imp: Impurity, pick: Pick) returns (t: Node)
    requires rows != [] && depth <= maxDepth
    ensures Build(rows, n, depth, maxDepth, minSamples, imp, pick) == Ok(t)
    ensures Sound(t, n, maxDepth - depth, Elements(Labels(rows)))
  {
    BuildSound(rows, n, depth, maxDepth, minSamples, imp, pick, Elements(Labels(rows)));
    t := Build(rows, n, depth, maxDepth, minSamples, imp, pick).value;
  }

  /** `fit` (which starts at depth 0, and any depth in range is covered)
      then `predict`: on a non-empty dataset with `n` features a row
      of `n` values never raises, and its prediction, when there is one, is
      a label from the dataset. */
  lemma {:induction false} PredictsTrainingLabel(rows: seq<Sample<Value>>, n: nat, depth: nat, maxDepth: nat, minSamples: int, imp: Impurity, pick: Pick, x: seq<Value>)
    requires rows != [] && |x| == n && depth <= maxDepth
    ensures Build(rows, n, depth, maxDepth, minSamples, imp, pick).Ok?
    ensures var p := Walk(x, Build(rows, n, depth, maxDepth, minSamples, imp, pick).value);
      p.Ok? && (p.value.Some? ==> p.value.value in Labels(rows))
  {
    var t := SoundTree(rows, n, depth, maxDepth, minSamples, imp, pick);
    WalkGivesLabel(x, t, n, maxDepth - depth, rows);
  }
}
