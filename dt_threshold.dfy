/** The binary decision tree of ai/decision_tree.py: internal nodes test
    `x[feature] <= threshold`, leaves hold a class and the number of
    training rows that reached them.  Features are integers; the
    information gain (entropy, `log2`) is a parameter, any real-valued
    function of the parent's and the two sides' labels. */
module ThresholdTree {
  import opened Outcomes
  import opened DecisionData

  /** What a leaf predicts: the mean of numeric labels, or a label. */
  datatype Class = Mean(r: real) | Label(v: Value)

  /** The dict a node is: `{"class", "samples"}` or
      `{"feature_index", "threshold", "left", "right"}`. */
  datatype Tree =
    | Leaf(cls: Class, samples: nat)
    | Split(feature: nat, threshold: int, left: Tree, right: Tree)

  /** A candidate split, as `best_split` records it. */
  datatype Choice = Choice(feature: nat, threshold: int, gain: real)

  /** `_information_gain(parent, left, right)`. */
  type Gain = (seq<Value>, seq<Value>, seq<Value>) -> real

  // ---------------------------------------------------------------------
  // _create_leaf_node

  predicate AllNumbers(ys: seq<Value>)
  {
    forall i :: 0 <= i < |ys| ==> ys[i].Num?
  }

  /** `sum(y)` over numeric labels. */
  function Sum(ys: seq<Value>): int
    requires AllNumbers(ys)
  {
    if ys == [] then 0 else Sum(ys[..|ys| - 1]) + ys[|ys| - 1].n
  }

  /** `_create_leaf_node(y)`: the most common label (first in order of
      appearance among the most common), replaced by the mean of the labels
      when it is a number.  An empty `y` makes `max` raise, and a numeric
      most common label beside a string label makes `sum` raise. */
  function LeafNode(ys: seq<Value>): (r: Result<Tree, string>)
    ensures r.Err? <==> ys == [] || (FirstMode(ys).Num? && !AllNumbers(ys))
    ensures r.Ok? ==> r.value.Leaf? && r.value.samples == |ys|
    ensures r.Ok? && FirstMode(ys).Str? ==> r.value.cls.Label? && IsMode(ys, r.value.cls.v)
    ensures r.Ok? && FirstMode(ys).Num? ==>
      r.value.cls.Mean? && r.value.cls.r * |ys| as real == Sum(ys) as real
  {
    if ys == [] then Err("ValueError: max() arg is an empty sequence")
    else
      var common := FirstMode(ys);
      if common.Num? then
        if AllNumbers(ys) then Ok(Leaf(Mean(Sum(ys) as real / |ys| as real), |ys|))
        else Err("TypeError: unsupported operand type(s) for +")
      else Ok(Leaf(Label(common), |ys|))
  }

  // ---------------------------------------------------------------------
  // _find_best_split

  /** The candidates of feature `f`: its distinct values in increasing
      order, each as a threshold. */
  function Thresholds(rows: seq<Sample<int>>, f: nat): (cs: seq<(nat, int)>)
    ensures forall i :: 0 <= i < |cs| ==> cs[i].0 == f
  {
    var ts := SortedUnique(Values(rows, f));
    seq(|ts|, k requires 0 <= k < |ts| => (f, ts[k]))
  }

  /** Every value of feature `f` is one of its thresholds. */
  lemma ThresholdsHave(rows: seq<Sample<int>>, f: nat, t: int) returns (k: nat)
    requires t in Values(rows, f)
    ensures k < |Thresholds(rows, f)| && Thresholds(rows, f)[k] == (f, t)
  {
    var ts := SortedUnique(Values(rows, f));
    SortedUniqueHas(Values(rows, f));
    k :| k < |ts| && ts[k] == t;
  }

  /** The candidates of the first `n` features, in the order of the
      nested loops of `_find_best_split`. */
  function Candidates(rows: seq<Sample<int>>, n: nat): (cs: seq<(nat, int)>)
    ensures forall i :: 0 <= i < |cs| ==> cs[i].0 < n
  {
    if n == 0 then [] else Candidates(rows, n - 1) + Thresholds(rows, n - 1)
  }

  /** Both sides of the candidate are non-empty, so `_find_best_split`
      scores it. */
  predicate Splits(rows: seq<Sample<int>>, c: (nat, int))
  {
    |AtMost(rows, c.0, c.1)| > 0 && |Above(rows, c.0, c.1)| > 0
  }

  /** The information gain of a candidate that splits; none otherwise. */
  function Score(rows: seq<Sample<int>>, gain: Gain, c: (nat, int)): Option<real>
  {
    if Splits(rows, c)
    then Some(gain(Labels(rows), Labels(AtMost(rows, c.0, c.1)), Labels(Above(rows, c.0, c.1))))
    else None
  }

  function Scores(rows: seq<Sample<int>>, gain: Gain, cs: seq<(nat, int)>): (s: seq<Option<real>>)
    ensures |s| == |cs|
  {
    seq(|cs|, j requires 0 <= j < |cs| => Score(rows, gain, cs[j]))
  }

  /** The split `_find_best_split` keeps after the candidates `cs`. */
  function BestOf(rows: seq<Sample<int>>, gain: Gain, cs: seq<(nat, int)>): Option<Choice>
  {
    var s := Scores(rows, gain, cs);
    match FirstBest(s)
    case None => None
    case Some(i) => Some(Choice(cs[i].0, cs[i].1, s[i].value))
  }

  /** The split kept is none when no candidate splits, and otherwise the
      first candidate of greatest gain, with that gain. */
  lemma BestOfIsFirstMax(rows: seq<Sample<int>>, gain: Gain, cs: seq<(nat, int)>)
    ensures var r := BestOf(rows, gain, cs);
      && (r.None? <==> forall j :: 0 <= j < |cs| ==> Score(rows, gain, cs[j]).None?)
      && (r.Some? ==> exists i :: Earliest(rows, gain, cs, i, r.value))
      && (r.Some? ==> forall j :: 0 <= j < |cs| && Score(rows, gain, cs[j]).Some? ==>
            Score(rows, gain, cs[j]).value <= r.value.gain)
  {
    var s := Scores(rows, gain, cs);
    assert forall j :: 0 <= j < |cs| ==> s[j] == Score(rows, gain, cs[j]);
    FirstBestIsFirstMax(s);
    var b := FirstBest(s);
    if b.Some? {
      assert Earliest(rows, gain, cs, b.value, BestOf(rows, gain, cs).value);
    }
  }

  /** Candidate `i` is `c` with its gain, and every earlier candidate that
      splits has a smaller gain. */
  predicate Earliest(rows: seq<Sample<int>>, gain: Gain, cs: seq<(nat, int)>, i: int, c: Choice)
  {
    && 0 <= i < |cs| && cs[i] == (c.feature, c.threshold) && Score(rows, gain, cs[i]) == Some(c.gain)
    && forall j :: 0 <= j < i && Score(rows, gain, cs[j]).Some? ==> Score(rows, gain, cs[j]).value < c.gain
  }

  /** One turn of the inner loop: a scored candidate replaces the best so
      far when there is none yet (the initial `-inf`) or when its gain is
      strictly greater. */
  function Step(rows: seq<Sample<int>>, gain: Gain, best: Option<Choice>, c: (nat, int)): Option<Choice>
  {
    var g := Score(rows, gain, c);
    if g.Some? && (best.None? || g.value > best.value.gain) then Some(Choice(c.0, c.1, g.value)) else best
  }

  /** The best split after one more candidate is one more turn of the
      loop. */
  lemma BestOfSnoc(rows: seq<Sample<int>>, gain: Gain, cs: seq<(nat, int)>, x: (nat, int))
    ensures BestOf(rows, gain, cs + [x]) == Step(rows, gain, BestOf(rows, gain, cs), x)
  {
    var s := Scores(rows, gain, cs + [x]);
    assert s[..|cs|] == Scores(rows, gain, cs);
    FirstBestIsFirstMax(Scores(rows, gain, cs));
  }

  /** One more threshold of the current feature is one more turn of the
      loop. */
  lemma Advance(rows: seq<Sample<int>>, gain: Gain, prefix: seq<(nat, int)>, cs: seq<(nat, int)>, k: nat)
    requires k < |cs|
    ensures BestOf(rows, gain, prefix + cs[..k + 1]) == Step(rows, gain, BestOf(rows, gain, prefix + cs[..k]), cs[k])
  {
    BestOfSnoc(rows, gain, prefix + cs[..k], cs[k]);
    assert prefix + cs[..k + 1] == (prefix + cs[..k]) + [cs[k]];
  }

  /** `_find_best_split(dataset)` over the `n` features: for each feature
      in order and each of its distinct values in increasing order, score
      the threshold split when both sides are non-empty and keep it when
      its gain is strictly the greatest so far. */
  method FindBestSplit(rows: seq<Sample<int>>, n: nat, gain: Gain) returns (best: Option<Choice>)
    ensures best == BestOf(rows, gain, Candidates(rows, n))
  {
    best := None;
    for f := 0 to n
      invariant best == BestOf(rows, gain, Candidates(rows, f))
    {
      best := ScanFeature(rows, f, gain, best, Candidates(rows, f));
    }
  }

  /** The inner loop of `_find_best_split`, over the thresholds of feature
      `f`, continuing from the best split `best0` of the candidates
      `prefix` before them. */
  method ScanFeature(rows: seq<Sample<int>>, f: nat, gain: Gain, best0: Option<Choice>, ghost prefix: seq<(nat, int)>)
    returns (best: Option<Choice>)
    requires best0 == BestOf(rows, gain, prefix)
    ensures best == BestOf(rows, gain, prefix + Thresholds(rows, f))
  {
    best := best0;
    var thresholds := Thresholds(rows, f);
    assert prefix + thresholds[..0] == prefix;
    for k := 0 to |thresholds|
      invariant best == BestOf(rows, gain, prefix + thresholds[..k])
    {
      var t := thresholds[k].1;
      var left, right := AtMost(rows, f, t), Above(rows, f, t);
      Advance(rows, gain, prefix, thresholds, k);
      if |left| > 0 && |right| > 0 {
        var g := gain(Labels(rows), Labels(left), Labels(right));
        if best.None? || g > best.value.gain {
          best := Some(Choice(f, t, g));
        }
      }
    }
    assert thresholds[..|thresholds|] == thresholds;
  }

  /** Some candidate splits exactly when some feature takes two different
      values on the rows; otherwise `_find_best_split` returns `{}`. */
  lemma SplitIffVaried(rows: seq<Sample<int>>, n: nat)
    requires Rectangular(rows, n)
    ensures var cs := Candidates(rows, n);
      (exists j :: 0 <= j < |cs| && Splits(rows, cs[j])) <==>
      (exists f, i, k :: 0 <= f < n && 0 <= i < |rows| && 0 <= k < |rows| && rows[i].x[f] != rows[k].x[f])
  {
    var cs := Candidates(rows, n);
    if exists j :: 0 <= j < |cs| && Splits(rows, cs[j]) {
      var j :| 0 <= j < |cs| && Splits(rows, cs[j]);
      var i, k := SplitVaries(rows, cs[j].0, cs[j].1);
      assert rows[i].x[cs[j].0] != rows[k].x[cs[j].0];
    }
    if exists f, i, k :: 0 <= f < n && 0 <= i < |rows| && 0 <= k < |rows| && rows[i].x[f] != rows[k].x[f] {
      var f, i, k :| 0 <= f < n && 0 <= i < |rows| && 0 <= k < |rows| && rows[i].x[f] != rows[k].x[f];
      var lo := if rows[i].x[f] < rows[k].x[f] then i else k;
      var hi := if rows[i].x[f] < rows[k].x[f] then k else i;
      var t := rows[lo].x[f];
      assert Values(rows, f)[lo] == t;
      var j := CandidatesHave(rows, n, f, t);
      LowestSplits(rows, f, lo, hi);
    }
  }

  /** A split's two sides hold rows that differ on its feature. */
  lemma SplitVaries(rows: seq<Sample<int>>, f: nat, t: int) returns (i: nat, k: nat)
    requires Splits(rows, (f, t))
    ensures i < |rows| && k < |rows| && At(rows[i], f) <= t < At(rows[k], f)
  {
    AtMostHas(rows, f, t);
    AboveHas(rows, f, t);
    assert AtMost(rows, f, t)[0] in AtMost(rows, f, t);
    assert Above(rows, f, t)[0] in Above(rows, f, t);
    i :| i < |rows| && rows[i] == AtMost(rows, f, t)[0];
    k :| k < |rows| && rows[k] == Above(rows, f, t)[0];
  }

  /** Thresholding at a lower value of a feature splits off the rows
      above it. */
  lemma LowestSplits(rows: seq<Sample<int>>, f: nat, lo: nat, hi: nat)
    requires lo < |rows| && hi < |rows| && At(rows[lo], f) < At(rows[hi], f)
    ensures Splits(rows, (f, At(rows[lo], f)))
  {
    var t := At(rows[lo], f);
    AtMostHas(rows, f, t);
    AboveHas(rows, f, t);
    assert rows[lo] in AtMost(rows, f, t);
    assert rows[hi] in Above(rows, f, t);
  }

  /** Every value of every feature is a candidate threshold. */
  lemma {:induction false} CandidatesHave(rows: seq<Sample<int>>, n: nat, f: nat, t: int) returns (j: nat)
    requires f < n && t in Values(rows, f)
    ensures j < |Candidates(rows, n)| && Candidates(rows, n)[j] == (f, t)
  {
    if f < n - 1 {
      j := CandidatesHave(rows, n - 1, f, t);
    } else {
      var k := ThresholdsHave(rows, f, t);
      j := |Candidates(rows, n - 1)| + k;
    }
  }

  // ---------------------------------------------------------------------
  // _build_tree

  /** `_build_tree(dataset, depth)` over rows with `n` features: a leaf at
      the depth bound, below `min_samples_split` rows or on pure labels;
      otherwise the best split, a leaf when its gain is not positive, and
      an error (`KeyError`) when no candidate splits. */
  function BuildTree(rows: seq<Sample<int>>, n: nat, depth: nat, maxDepth: Option<nat>, minSamples: int, gain: Gain): (r: Result<Tree, string>)
    requires Rectangular(rows, n)
    decreases |rows|
  {
    var ys := Labels(rows);
    if (maxDepth.Some? && depth >= maxDepth.value) || |ys| < minSamples || IsPure(ys) then LeafNode(ys)
    else
      var best := BestOf(rows, gain, Candidates(rows, n));
      if best.None? then Err("KeyError: 'info_gain'")
      else if best.value.gain <= 0.0 then LeafNode(ys)
      else
        var c := best.value;
        var cs := Candidates(rows, n);
        BestOfIsFirstMax(rows, gain, cs);
        var i :| Earliest(rows, gain, cs, i, c);
        Sides(rows, n, c.feature, c.threshold);
        var left, right := AtMost(rows, c.feature, c.threshold), Above(rows, c.feature, c.threshold);
        match BuildTree(left, n, depth + 1, maxDepth, minSamples, gain)
        case Err(e) => Err(e)
        case Ok(l) =>
          match BuildTree(right, n, depth + 1, maxDepth, minSamples, gain)
          case Err(e) => Err(e)
          case Ok(rt) => Ok(Split(c.feature, c.threshold, l, rt))
  }

  /** The two sides of a split of rows with `n` features are rows with
      `n` features that share out the dataset. */
  lemma Sides(rows: seq<Sample<int>>, n: nat, f: nat, t: int)
    requires Rectangular(rows, n) && f < n
    ensures Rectangular(AtMost(rows, f, t), n) && Rectangular(Above(rows, f, t), n)
    ensures |AtMost(rows, f, t)| + |Above(rows, f, t)| == |rows|
  {
    ThresholdPartition(rows, f, t);
    AtMostHas(rows, f, t);
    AboveHas(rows, f, t);
    forall s | s in rows ensures |s.x| == n {
      var i :| 0 <= i < |rows| && rows[i] == s;
    }
  }

  function Height(t: Tree): nat
  {
    match t
    case Leaf(_, _) => 0
    case Split(_, _, l, r) => 1 + if Height(l) < Height(r) then Height(r) else Height(l)
  }

  /** The rows counted at the leaves. */
  function Samples(t: Tree): nat
  {
    match t
    case Leaf(_, s) => s
    case Split(_, _, l, r) => Samples(l) + Samples(r)
  }

  /** Every feature a node tests is below `n`. */
  predicate Tests(t: Tree, n: nat)
  {
    match t
    case Leaf(_, _) => true
    case Split(f, _, l, r) => f < n && Tests(l, n) && Tests(r, n)
  }

  /** A node is split only when none of the leaf rules applies: the depth
      is below the bound, there are at least `min_samples_split` rows, the
      labels are not pure, and the best split has a positive gain; the node
      tests that split. */
  lemma SplitOnlyWhen(rows: seq<Sample<int>>, n: nat, depth: nat, maxDepth: Option<nat>, minSamples: int, gain: Gain)
    requires Rectangular(rows, n)
    ensures var r := BuildTree(rows, n, depth, maxDepth, minSamples, gain);
      r.Ok? && r.value.Split? ==>
        var best := BestOf(rows, gain, Candidates(rows, n));
        && (maxDepth.None? || depth < maxDepth.value)
        && |rows| >= minSamples && !IsPure(Labels(rows))
        && best.Some? && best.value.gain > 0.0
        && r.value.feature == best.value.feature && r.value.threshold == best.value.threshold
  {
  }

  /** When the leaf rules do not apply and no feature takes two values on
      the rows, building raises `KeyError`. */
  lemma NoSplitRaises(rows: seq<Sample<int>>, n: nat, depth: nat, maxDepth: Option<nat>, minSamples: int, gain: Gain)
    requires Rectangular(rows, n)
    requires (maxDepth.None? || depth < maxDepth.value) && |rows| >= minSamples && !IsPure(Labels(rows))
    requires forall f, i, k :: 0 <= f < n && 0 <= i < |rows| && 0 <= k < |rows| ==> rows[i].x[f] == rows[k].x[f]
    ensures BuildTree(rows, n, depth, maxDepth, minSamples, gain) == Err("KeyError: 'info_gain'")
  {
    var cs := Candidates(rows, n);
    BestOfIsFirstMax(rows, gain, cs);
    forall j | 0 <= j < |cs| ensures Score(rows, gain, cs[j]).None? {
      if Splits(rows, cs[j]) {
        var i, k := SplitVaries(rows, cs[j].0, cs[j].1);
        assert false;
      }
    }
  }

  /** A split node tests the best split of its rows, on a feature of the
      dataset, and its subtrees are built from the two sides. */
  lemma BuiltSplit(rows: seq<Sample<int>>, n: nat, depth: nat, maxDepth: Option<nat>, minSamples: int, gain: Gain)
    returns (f: nat, t: int)
    requires Rectangular(rows, n)
    requires BuildTree(rows, n, depth, maxDepth, minSamples, gain).Ok?
    requires BuildTree(rows, n, depth, maxDepth, minSamples, gain).value.Split?
    ensures f < n
    ensures Rectangular(AtMost(rows, f, t), n) && |AtMost(rows, f, t)| < |rows|
    ensures Rectangular(Above(rows, f, t), n) && |Above(rows, f, t)| < |rows|
    ensures |AtMost(rows, f, t)| + |Above(rows, f, t)| == |rows|
    ensures var l := BuildTree(AtMost(rows, f, t), n, depth + 1, maxDepth, minSamples, gain);
      var r := BuildTree(Above(rows, f, t), n, depth + 1, maxDepth, minSamples, gain);
      l.Ok? && r.Ok? && BuildTree(rows, n, depth, maxDepth, minSamples, gain).value == Split(f, t, l.value, r.value)
    ensures maxDepth.None? || depth < maxDepth.value
  {
    var c := BestOf(rows, gain, Candidates(rows, n)).value;
    var cs := Candidates(rows, n);
    BestOfIsFirstMax(rows, gain, cs);
    var i :| Earliest(rows, gain, cs, i, c);
    f, t := c.feature, c.threshold;
    Sides(rows, n, f, t);
  }

  /** A leaf built from the rows counts them all. */
  lemma BuiltLeaf(rows: seq<Sample<int>>, n: nat, depth: nat, maxDepth: Option<nat>, minSamples: int, gain: Gain)
    requires Rectangular(rows, n)
    requires BuildTree(rows, n, depth, maxDepth, minSamples, gain).Ok?
    requires BuildTree(rows, n, depth, maxDepth, minSamples, gain).value.Leaf?
    ensures BuildTree(rows, n, depth, maxDepth, minSamples, gain).value.samples == |rows|
  {
  }

  /** The tree built at `depth` is at most `max_depth - depth` deep. */
  lemma {:induction false} HeightBound(rows: seq<Sample<int>>, n: nat, depth: nat, maxDepth: nat, minSamples: int, gain: Gain)
    requires Rectangular(rows, n) && depth <= maxDepth
    ensures var r := BuildTree(rows, n, depth, Some(maxDepth), minSamples, gain);
      r.Ok? ==> Height(r.value) <= maxDepth - depth
    decreases |rows|
  {
    var r := BuildTree(rows, n, depth, Some(maxDepth), minSamples, gain);
    if r.Ok? && r.value.Split? {
      var f, t := BuiltSplit(rows, n, depth, Some(maxDepth), minSamples, gain);
      HeightBound(AtMost(rows, f, t), n, depth + 1, maxDepth, minSamples, gain);
      HeightBound(Above(rows, f, t), n, depth + 1, maxDepth, minSamples, gain);
      var l := BuildTree(AtMost(rows, f, t), n, depth + 1, Some(maxDepth), minSamples, gain);
      var rt := BuildTree(Above(rows, f, t), n, depth + 1, Some(maxDepth), minSamples, gain);
      assert Height(l.value) <= maxDepth - depth - 1;
      assert Height(rt.value) <= maxDepth - depth - 1;
      assert r.value == Split(f, t, l.value, rt.value);
    }
  }

  /** Every training row reaches exactly one leaf: the leaves' sample
      counts add up to the number of rows. */
  lemma {:induction false} SamplesAddUp(rows: seq<Sample<int>>, n: nat, depth: nat, maxDepth: Option<nat>, minSamples: int, gain: Gain)
    requires Rectangular(rows, n)
    requires BuildTree(rows, n, depth, maxDepth, minSamples, gain).Ok?
    ensures Samples(BuildTree(rows, n, depth, maxDepth, minSamples, gain).value) == |rows|
    decreases |rows|
  {
    if BuildTree(rows, n, depth, maxDepth, minSamples, gain).value.Leaf? {
      BuiltLeaf(rows, n, depth, maxDepth, minSamples, gain);
    } else {
      var f, t := BuiltSplit(rows, n, depth, maxDepth, minSamples, gain);
      SamplesAddUp(AtMost(rows, f, t), n, depth + 1, maxDepth, minSamples, gain);
      SamplesAddUp(Above(rows, f, t), n, depth + 1, maxDepth, minSamples, gain);
    }
  }

  /** The built tree tests only features of the dataset. */
  lemma {:induction false} TestsDatasetFeatures(rows: seq<Sample<int>>, n: nat, depth: nat, maxDepth: Option<nat>, minSamples: int, gain: Gain)
    requires Rectangular(rows, n)
    requires BuildTree(rows, n, depth, maxDepth, minSamples, gain).Ok?
    ensures Tests(BuildTree(rows, n, depth, maxDepth, minSamples, gain).value, n)
    decreases |rows|
  {
    var r := BuildTree(rows, n, depth, maxDepth, minSamples, gain).value;
    if r.Leaf? {
      assert Tests(r, n);
    } else {
      var f, t := BuiltSplit(rows, n, depth, maxDepth, minSamples, gain);
      TestsDatasetFeatures(AtMost(rows, f, t), n, depth + 1, maxDepth, minSamples, gain);
      TestsDatasetFeatures(Above(rows, f, t), n, depth + 1, maxDepth, minSamples, gain);
    }
  }

  // ---------------------------------------------------------------------
  // _predict_single

  /** `_predict_single(x, tree)`: a leaf's class, or the left subtree when
      `x[feature] <= threshold` and the right one otherwise; a feature `x`
      lacks raises `KeyError`. */
  function Predict(x: seq<int>, t: Tree): (r: Result<Class, string>)
  {
    match t
    case Leaf(cls, _) => Ok(cls)
    case Split(f, thr, l, rt) =>
      if f >= |x| then Err("KeyError")
      else if x[f] <= thr then Predict(x, l) else Predict(x, rt)
  }

  /** The classes held at the leaves. */
  function Classes(t: Tree): set<Class>
  {
    match t
    case Leaf(cls, _) => {cls}
    case Split(_, _, l, r) => Classes(l) + Classes(r)
  }

  /** A row with all the features the tree tests gets a prediction, and the
      prediction is the class of one of the tree's leaves. */
  lemma {:induction false} PredictIsLeafClass(x: seq<int>, t: Tree)
    requires Tests(t, |x|)
    ensures Predict(x, t).Ok? && Predict(x, t).value in Classes(t)
  {
    match t
    case Leaf(_, _) =>
    case Split(f, thr, l, r) =>
      PredictIsLeafClass(x, l);
      PredictIsLeafClass(x, r);
  }

  /** A tree built from rows with `n` features predicts a leaf's class for
      every row with `n` features. */
  lemma BuiltTreePredicts(rows: seq<Sample<int>>, n: nat, maxDepth: Option<nat>, minSamples: int, gain: Gain, x: seq<int>)
    requires Rectangular(rows, n) && |x| == n
    requires BuildTree(rows, n, 0, maxDepth, minSamples, gain).Ok?
    ensures var t := BuildTree(rows, n, 0, maxDepth, minSamples, gain).value;
      Predict(x, t).Ok? && Predict(x, t).value in Classes(t)
  {
    TestsDatasetFeatures(rows, n, 0, maxDepth, minSamples, gain);
    PredictIsLeafClass(x, BuildTree(rows, n, 0, maxDepth, minSamples, gain).value);
  }
}
