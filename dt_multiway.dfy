/** The multi-way decision trees of src/ai/decision_tree.py,
    ai/decisision_tree.py and ai/decisision_tree_connect4.py: a node either
    holds a label or tests one feature and has one child per value of that
    feature seen in training.  The dict of children in src/ai/decision_tree.py
    and the parallel `split_values` / `children` lists of the other two files
    are both a list of keys with a list of subtrees. */
module MultiwayTree {
  import opened Outcomes
  import opened DecisionData

  datatype Node =
    | Leaf(value: Value)
    | Branch(feature: nat, keys: seq<Value>, kids: seq<Node>)

  /** The position of the first key equal to `v`, or `|keys|` when there is
      none. */
  function FirstIndex(keys: seq<Value>, v: Value): (i: nat)
    ensures i <= |keys|
    ensures i < |keys| ==> keys[i] == v
    ensures forall j :: 0 <= j < i ==> keys[j] != v
  {
    if keys == [] then 0
    else if keys[0] == v then 0
    else 1 + FirstIndex(keys[1..], v)
  }

  /** `make_prediction` of ai/decisision_tree.py: a leaf gives its label;
      a branch follows the first key equal to the row's value of its
      feature, and a value no key matches gives `None`.  Reading a feature
      the row does not have raises, as indexing the pandas row does. */
  function Walk(x: seq<Value>, t: Node): Result<Option<Value>, string>
    decreases t
  {
    match t
    case Leaf(v) => Ok(Some(v))
    case Branch(f, keys, kids) =>
      if f >= |x| then Err("KeyError")
      else
        var i := FirstIndex(keys, x[f]);
        if i == |keys| then Ok(None)
        else if i >= |kids| then Err("IndexError: list index out of range")
        else Walk(x, kids[i])
  }

  /** The shape every built tree has: one child per key, keys distinct,
      features below `n`, at most `h` tests on any path, and every leaf
      label in `ls`. */
  predicate Sound(t: Node, n: nat, h: nat, ls: set<Value>)
    decreases t
  {
    match t
    case Leaf(v) => v in ls
    case Branch(f, keys, kids) =>
      && h > 0 && f < n && |keys| == |kids| && Distinct(keys)
      && forall i :: 0 <= i < |kids| ==> Sound(kids[i], n, h - 1, ls)
  }

  /** A branch whose keys are distinct, one per child, over sound children
      one level lower, is sound. */
  lemma BranchIsSound(f: nat, keys: seq<Value>, kids: seq<Node>, n: nat, hk: nat, h: nat, ls: set<Value>)
    requires f < n && |keys| == |kids| && Distinct(keys) && h == hk + 1
    requires forall i :: 0 <= i < |kids| ==> Sound(kids[i], n, hk, ls)
    ensures Sound(Branch(f, keys, kids), n, h, ls)
  {
  }

  /** On a sound tree a row with all `n` features never raises, and what it
      predicts, if anything, is a leaf label. */
  lemma {:induction false} WalkSound(x: seq<Value>, t: Node, n: nat, h: nat, ls: set<Value>)
    requires Sound(t, n, h, ls) && |x| == n
    ensures Walk(x, t).Ok?
    ensures Walk(x, t).value.Some? ==> Walk(x, t).value.value in ls
    decreases t
  {
    if t.Branch? {
      var i := FirstIndex(t.keys, x[t.feature]);
      if i < |t.keys| {
        WalkSound(x, t.kids[i], n, h - 1, ls);
      }
    }
  }

  /** On a tree sound for the labels of `rows`, a row of `n` values never
      raises, and a prediction is a label of `rows`. */
  lemma WalkGivesLabel(x: seq<Value>, t: Node, n: nat, h: nat, rows: seq<Sample<Value>>)
    requires Sound(t, n, h, Elements(Labels(rows))) && |x| == n
    ensures Walk(x, t).Ok? && (Walk(x, t).value.Some? ==> Walk(x, t).value.value in Labels(rows))
  {
    WalkSound(x, t, n, h, Elements(Labels(rows)));
  }

  /** On a sound tree `Walk` reads at most `h` features: following the key
      equal to the row's value is the same as following the only such
      key, which is what the dict lookup of src/ai/decision_tree.py does. */
  lemma {:induction false} WalkFollowsUniqueKey(x: seq<Value>, t: Node, n: nat, h: nat, ls: set<Value>, i: nat)
    requires Sound(t, n, h, ls) && |x| == n && t.Branch? && i < |t.keys| && t.keys[i] == x[t.feature]
    ensures Walk(x, t) == Walk(x, t.kids[i])
  {
    var j := FirstIndex(t.keys, x[t.feature]);
    assert j <= i;
    if j < i {
      assert false;
    }
  }

  /** Every label of a sub-dataset is a label of the dataset. */
  lemma LabelsWithin(a: seq<Sample<Value>>, b: seq<Sample<Value>>)
    requires forall s :: s in a ==> s in b
    ensures Elements(Labels(a)) <= Elements(Labels(b))
  {
    forall y | y in Elements(Labels(a)) ensures y in Elements(Labels(b)) {
      var i :| 0 <= i < |a| && Labels(a)[i] == y;
      assert a[i] in b;
      var j :| 0 <= j < |b| && b[j] == a[i];
      assert Labels(b)[j] == y;
    }
  }

  /** Each group of a split is non-empty and holds labels of the dataset. */
  lemma GroupWithin(rows: seq<Sample<Value>>, f: nat, i: nat)
    requires i < |Groups(rows, f)|
    ensures Groups(rows, f)[i] != [] && Elements(Labels(Groups(rows, f)[i])) <= Elements(Labels(rows))
  {
    var cs := Cells(rows, f);
    var u := Unique(cs)[i];
    var g := Groups(rows, f)[i];
    assert g == Matching(rows, f, u);
    MatchingHas(rows, f, u);
    assert u in cs;
    var k :| 0 <= k < |cs| && cs[k] == u;
    assert rows[k] in g;
    LabelsWithin(g, rows);
  }

  // ---------------------------------------------------------------------
  // Information gain of a discrete split

  /** The impurity of a list of labels (`_entropy` or `_gini_index`; their
      logarithms and floats are outside the model). */
  type Impurity = seq<Value> -> real

  /** Sum of the group impurities, each weighted by the group's share of
      `total` rows. */
  function Weighted(imp: Impurity, gs: seq<seq<Sample<Value>>>, total: nat): real
  {
    if gs == [] || total == 0 then 0.0
    else (|gs[0]| as real / total as real) * imp(Labels(gs[0])) + Weighted(imp, gs[1..], total)
  }

  /** `_discrete_info_gain`: the impurity of the labels minus the weighted
      impurity of the groups of `_discrete_split` on feature `f`. */
  function DiscreteGain(imp: Impurity, rows: seq<Sample<Value>>, f: nat): real
  {
    imp(Labels(rows)) - Weighted(imp, Groups(rows, f), |rows|)
  }

  /** All rows match the value every row has. */
  lemma {:induction false} MatchingAll(rows: seq<Sample<Value>>, f: nat, v: Value)
    requires forall i :: 0 <= i < |rows| ==> Cell(rows[i], f) == v
    ensures Matching(rows, f, v) == rows
  {
    if rows != [] {
      MatchingAll(rows[..|rows| - 1], f, v);
      assert rows[..|rows| - 1] + [rows[|rows| - 1]] == rows;
    }
  }

  /** A feature with one value on every row has that value as its only
      distinct value. */
  lemma OnlyValue(rows: seq<Sample<Value>>, f: nat, v: Value)
    requires rows != [] && forall i :: 0 <= i < |rows| ==> Cell(rows[i], f) == v
    ensures Unique(Cells(rows, f)) == [v]
  {
    var cs := Cells(rows, f);
    var us := Unique(cs);
    assert cs[0] == v;
    assert v in us;
    forall u | u in us ensures u == v {
      assert u in cs;
      var i :| 0 <= i < |cs| && cs[i] == u;
    }
    if |us| > 1 {
      TwoDistinct(us);
      assert false;
    }
  }

  lemma TwoDistinct(s: seq<Value>)
    requires Distinct(s) && |s| > 1
    ensures s[0] in s && s[1] in s && s[0] != s[1]
  {
  }

  /** Splitting on a feature that has one value on every row gains nothing:
      its only group is the whole dataset. */
  lemma ConstantFeatureGainsNothing(imp: Impurity, rows: seq<Sample<Value>>, f: nat, v: Value)
    requires rows != [] && forall i :: 0 <= i < |rows| ==> Cell(rows[i], f) == v
    ensures DiscreteGain(imp, rows, f) == 0.0
  {
    OnlyValue(rows, f, v);
    MatchingAll(rows, f, v);
    assert Groups(rows, f) == [rows];
    WholeWeight(imp, rows);
  }

  /** The whole dataset as the only group weighs its full impurity. */
  lemma WholeWeight(imp: Impurity, rows: seq<Sample<Value>>)
    requires rows != []
    ensures Weighted(imp, [rows], |rows|) == imp(Labels(rows))
  {
    WeightedOne(imp, [rows], |rows|);
  }

  /** A single group holding all `total` rows weighs its own impurity:
      the arithmetic behind `WholeWeight`, stated on a variable sequence. */
  lemma WeightedOne(imp: Impurity, gs: seq<seq<Sample<Value>>>, total: nat)
    requires |gs| == 1 && |gs[0]| == total > 0
    ensures Weighted(imp, gs, total) == imp(Labels(gs[0]))
  {
    WeightedHead(imp, gs, total);
    FullShare(|gs[0]| as real, total as real, imp(Labels(gs[0])), Weighted(imp, gs, total), Weighted(imp, gs[1..], total));
  }

  /** One unfolding of `Weighted`: the first group's share plus the rest. */
  lemma WeightedHead(imp: Impurity, gs: seq<seq<Sample<Value>>>, total: nat)
    requires gs != [] && total > 0
    ensures Weighted(imp, gs, total) == (|gs[0]| as real / total as real) * imp(Labels(gs[0])) + Weighted(imp, gs[1..], total)
  {
  }

  /** The real arithmetic of `WeightedOne`: a group whose size is the whole
      total has share 1, so with nothing after it the weighted sum is its
      impurity. */
  lemma FullShare(k: real, n: real, x: real, w: real, rest: real)
    requires k == n && n > 0.0 && rest == 0.0 && w == (k / n) * x + rest
    ensures w == x
  {
    assert k / n == 1.0;
  }
}
