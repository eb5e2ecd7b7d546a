/** The data the decision trees of ai/decision_tree.py, src/ai/decision_tree.py,
    ai/decisision_tree.py and ai/decisision_tree_connect4.py learn from: rows
    of feature values with a label, as lists instead of DataFrames, and the
    label statistics the trees share (counts, the most common label,
    purity, distinct values in order of appearance). */
module DecisionData {
  import opened Outcomes

  /** A cell of a DataFrame: a number or a string (the Connect Four datasets
      hold 'b', 'x', 'o' and 'win', 'draw', 'loss'). */
  datatype Value = Num(n: int) | Str(s: string)

  /** One row of a dataset: its feature values and, last, its label. */
  datatype Sample<F> = Sample(x: seq<F>, y: Value)

  /** The labels of a dataset (`dataset.iloc[:, -1]`). */
  function Labels<F>(rows: seq<Sample<F>>): (ys: seq<Value>)
    ensures |ys| == |rows| && forall i :: 0 <= i < |rows| ==> ys[i] == rows[i].y
  {
    seq(|rows|, i requires 0 <= i < |rows| => rows[i].y)
  }

  /** Every row has `n` features (the DataFrame's columns but the last). */
  predicate Rectangular<F>(rows: seq<Sample<F>>, n: nat)
  {
    forall i :: 0 <= i < |rows| ==> |rows[i].x| == n
  }

  /** `list.count(v)`. */
  function Count(ys: seq<Value>, v: Value): nat
  {
    multiset(ys)[v]
  }

  /** The position of the first label of greatest count among the first
      `n` labels: Python's `max` keeps its first candidate and replaces it
      only by a strictly greater one. */
  function ModeIndex(ys: seq<Value>, n: nat): (k: nat)
    requires 0 < n <= |ys|
    ensures k < n
    ensures forall j :: 0 <= j < n ==> Count(ys, ys[j]) <= Count(ys, ys[k])
    ensures forall j :: 0 <= j < k ==> Count(ys, ys[j]) < Count(ys, ys[k])
  {
    if n == 1 then 0
    else
      var k := ModeIndex(ys, n - 1);
      if Count(ys, ys[n - 1]) > Count(ys, ys[k]) then n - 1 else k
  }

  /** `max(y, key=y.count)`: the first label, in list order, of greatest
      count. */
  function FirstMode(ys: seq<Value>): (v: Value)
    requires ys != []
    ensures IsMode(ys, v)
    ensures exists k :: 0 <= k < |ys| && ys[k] == v && forall j :: 0 <= j < k ==> Count(ys, ys[j]) < Count(ys, v)
  {
    var k := ModeIndex(ys, |ys|);
    assert forall w :: w in ys ==> exists j :: 0 <= j < |ys| && ys[j] == w;
    ys[k]
  }

  /** `v` is one of the most common labels of `ys`. */
  predicate IsMode(ys: seq<Value>, v: Value)
  {
    v in ys && forall w :: w in ys ==> Count(ys, w) <= Count(ys, v)
  }

  /** `set(ys)`. */
  function Elements(ys: seq<Value>): set<Value>
  {
    set y | y in ys
  }

  /** `_is_pure`: `len(set(ys)) == 1`. */
  predicate IsPure(ys: seq<Value>)
  {
    |Elements(ys)| == 1
  }

  /** A label list is pure exactly when it is not empty and all its labels
      equal the first. */
  lemma PureIffAllEqual(ys: seq<Value>)
    ensures IsPure(ys) <==> ys != [] && forall i :: 0 <= i < |ys| ==> ys[i] == ys[0]
  {
    if ys != [] && forall i :: 0 <= i < |ys| ==> ys[i] == ys[0] {
      assert Elements(ys) == {ys[0]};
    }
    if IsPure(ys) {
      assert ys[0] in Elements(ys);
      forall i | 0 <= i < |ys|
        ensures ys[i] == ys[0]
      {
        if ys[i] != ys[0] {
          SubsetSize({ys[0], ys[i]}, Elements(ys));
        }
      }
    }
  }

  /** A subset is no larger than its superset. */
  lemma {:induction false} SubsetSize<T>(a: set<T>, b: set<T>)
    requires a <= b
    ensures |a| <= |b|
    decreases |b|
  {
    if a != {} {
      var x :| x in a;
      SubsetSize(a - {x}, b - {x});
    }
  }

  /** No value occurs twice. */
  predicate Distinct<T(==)>(s: seq<T>)
  {
    forall i, j :: 0 <= i < j < |s| ==> s[i] != s[j]
  }

  /** `pd.unique(vs)` (and the keys of a dict filled in list order): the
      distinct values of `vs` in order of first appearance. */
  function Unique<T(==,!new)>(vs: seq<T>): (u: seq<T>)
    ensures Distinct(u)
    ensures forall v :: v in u <==> v in vs
  {
    if vs == [] then []
    else
      var u := Unique(vs[..|vs| - 1]);
      assert forall v :: v in vs <==> v in vs[..|vs| - 1] || v == vs[|vs| - 1];
      if vs[|vs| - 1] in u then u else u + [vs[|vs| - 1]]
  }

  predicate Increasing(s: seq<int>)
  {
    forall i, j :: 0 <= i < j < |s| ==> s[i] < s[j]
  }

  /** `x` placed into the list `s`, before the first value not below it,
      unless it is there already. */
  function Insert(x: int, s: seq<int>): seq<int>
  {
    if s == [] then [x]
    else if x < s[0] then [x] + s
    else if x == s[0] then s
    else [s[0]] + Insert(x, s[1..])
  }

  /** Inserting into an increasing list keeps it increasing and adds
      exactly `x`. */
  lemma {:induction false} InsertKeepsOrder(x: int, s: seq<int>)
    requires Increasing(s)
    ensures Increasing(Insert(x, s))
    ensures forall v :: v in Insert(x, s) <==> v == x || v in s
  {
    if s != [] && x > s[0] {
      InsertKeepsOrder(x, s[1..]);
      assert forall v :: v in s <==> v == s[0] || v in s[1..];
    }
  }

  /** `sorted(set(vs))` (`np.unique`): the distinct values of `vs` in
      increasing order. */
  function SortedUnique(vs: seq<int>): seq<int>
  {
    if vs == [] then [] else Insert(vs[|vs| - 1], SortedUnique(vs[..|vs| - 1]))
  }

  /** The distinct values come out increasing, each value of `vs` once. */
  lemma {:induction false} SortedUniqueHas(vs: seq<int>)
    ensures Increasing(SortedUnique(vs))
    ensures forall v :: v in SortedUnique(vs) <==> v in vs
  {
    if vs != [] {
      SortedUniqueHas(vs[..|vs| - 1]);
      InsertKeepsOrder(vs[|vs| - 1], SortedUnique(vs[..|vs| - 1]));
      assert forall v :: v in vs <==> v in vs[..|vs| - 1] || v == vs[|vs| - 1];
    }
  }

  /** Feature `f` of a numeric row.  Every row of a DataFrame has every
      column, so on the rectangular datasets the trees are built from the
      fallback 0 is never read. */
  function At(s: Sample<int>, f: nat): int
  {
    if f < |s.x| then s.x[f] else 0
  }

  /** Feature `f` of every row. */
  function Values(rows: seq<Sample<int>>, f: nat): (c: seq<int>)
    ensures |c| == |rows| && forall i :: 0 <= i < |rows| ==> c[i] == At(rows[i], f)
  {
    seq(|rows|, i requires 0 <= i < |rows| => At(rows[i], f))
  }

  /** The rows whose feature `f` is at most `t` (`dataset[column <= t]`). */
  function AtMost(rows: seq<Sample<int>>, f: nat, t: int): (r: seq<Sample<int>>)
    ensures |r| <= |rows|
  {
    if rows == [] then []
    else
      var last := rows[|rows| - 1];
      var r := AtMost(rows[..|rows| - 1], f, t);
      if At(last, f) <= t then r + [last] else r
  }

  /** The rows kept by `AtMost` are those of the dataset at or below the
      threshold. */
  lemma {:induction false} AtMostHas(rows: seq<Sample<int>>, f: nat, t: int)
    ensures forall s :: s in AtMost(rows, f, t) <==> s in rows && At(s, f) <= t
  {
    if rows != [] {
      AtMostHas(rows[..|rows| - 1], f, t);
      assert forall s :: s in rows <==> s in rows[..|rows| - 1] || s == rows[|rows| - 1];
    }
  }

  /** The rows whose feature `f` is above `t` (`dataset[column > t]`). */
  function Above(rows: seq<Sample<int>>, f: nat, t: int): (r: seq<Sample<int>>)
    ensures |r| <= |rows|
  {
    if rows == [] then []
    else
      var last := rows[|rows| - 1];
      var r := Above(rows[..|rows| - 1], f, t);
      if At(last, f) > t then r + [last] else r
  }

  /** The rows kept by `Above` are those of the dataset above the
      threshold. */
  lemma {:induction false} AboveHas(rows: seq<Sample<int>>, f: nat, t: int)
    ensures forall s :: s in Above(rows, f, t) <==> s in rows && At(s, f) > t
  {
    if rows != [] {
      AboveHas(rows[..|rows| - 1], f, t);
      assert forall s :: s in rows <==> s in rows[..|rows| - 1] || s == rows[|rows| - 1];
    }
  }

  /** The two sides of a threshold split share out the rows: as multisets
      they add up to the dataset. */
  lemma {:induction false} ThresholdPartition(rows: seq<Sample<int>>, f: nat, t: int)
    ensures multiset(AtMost(rows, f, t)) + multiset(Above(rows, f, t)) == multiset(rows)
    ensures |AtMost(rows, f, t)| + |Above(rows, f, t)| == |rows|
  {
    if rows != [] {
      var init := rows[..|rows| - 1];
      ThresholdPartition(init, f, t);
      assert rows == init + [rows[|rows| - 1]];
    }
  }

  // ---------------------------------------------------------------------
  // Discrete features

  /** Feature `f` of a row of labelled cells; on the rectangular datasets
      the trees are built from the fallback is never read. */
  function Cell(s: Sample<Value>, f: nat): Value
  {
    if f < |s.x| then s.x[f] else Str("")
  }

  /** Feature `f` of every row (`dataset.iloc[:, f]`). */
  function Cells(rows: seq<Sample<Value>>, f: nat): (c: seq<Value>)
    ensures |c| == |rows| && forall i :: 0 <= i < |rows| ==> c[i] == Cell(rows[i], f)
  {
    seq(|rows|, i requires 0 <= i < |rows| => Cell(rows[i], f))
  }

  /** The rows whose feature `f` equals `v` (`dataset[column == v]`). */
  function Matching(rows: seq<Sample<Value>>, f: nat, v: Value): (r: seq<Sample<Value>>)
    ensures |r| <= |rows|
  {
    if rows == [] then []
    else
      var last := rows[|rows| - 1];
      var r := Matching(rows[..|rows| - 1], f, v);
      if Cell(last, f) == v then r + [last] else r
  }

  /** The rows kept by `Matching` are those of the dataset with value `v`. */
  lemma {:induction false} MatchingHas(rows: seq<Sample<Value>>, f: nat, v: Value)
    ensures forall s :: s in Matching(rows, f, v) <==> s in rows && Cell(s, f) == v
  {
    if rows != [] {
      MatchingHas(rows[..|rows| - 1], f, v);
      assert forall s :: s in rows <==> s in rows[..|rows| - 1] || s == rows[|rows| - 1];
    }
  }

  /** One group of rows per distinct value of feature `f`, in order of
      first appearance: `_discrete_split`. */
  function Groups(rows: seq<Sample<Value>>, f: nat): (gs: seq<seq<Sample<Value>>>)
    ensures |gs| == |Unique(Cells(rows, f))|
  {
    var us := Unique(Cells(rows, f));
    seq(|us|, i requires 0 <= i < |us| => Matching(rows, f, us[i]))
  }

  /** The number of rows over the groups of the values `ks`. */
  function GroupSizes(rows: seq<Sample<Value>>, f: nat, ks: seq<Value>): nat
  {
    if ks == [] then 0 else |Matching(rows, f, ks[0])| + GroupSizes(rows, f, ks[1..])
  }

  /** One more row adds one to the group of its value, if that value is
      among the distinct keys. */
  lemma {:induction false} GroupSizesSnoc(rows: seq<Sample<Value>>, s: Sample<Value>, f: nat, ks: seq<Value>)
    requires Distinct(ks)
    ensures GroupSizes(rows + [s], f, ks) == GroupSizes(rows, f, ks) + if Cell(s, f) in ks then 1 else 0
  {
    assert (rows + [s])[..|rows|] == rows;
    if ks != [] {
      GroupSizesSnoc(rows, s, f, ks[1..]);
      assert Cell(s, f) in ks <==> Cell(s, f) == ks[0] || Cell(s, f) in ks[1..];
      assert Cell(s, f) == ks[0] ==> Cell(s, f) !in ks[1..];
    }
  }

  /** Distinct keys covering every value of feature `f` share out all the
      rows. */
  lemma {:induction false} GroupSizesCover(rows: seq<Sample<Value>>, f: nat, ks: seq<Value>)
    requires Distinct(ks) && forall i :: 0 <= i < |rows| ==> Cell(rows[i], f) in ks
    ensures GroupSizes(rows, f, ks) == |rows|
  {
    if rows == [] {
      GroupSizesEmpty(f, ks);
    } else {
      var init := rows[..|rows| - 1];
      GroupSizesCover(init, f, ks);
      GroupSizesSnoc(init, rows[|rows| - 1], f, ks);
      assert init + [rows[|rows| - 1]] == rows;
    }
  }

  lemma {:induction false} GroupSizesEmpty(f: nat, ks: seq<Value>)
    ensures GroupSizes([], f, ks) == 0
  {
    if ks != [] {
      GroupSizesEmpty(f, ks[1..]);
    }
  }

  /** The groups of `_discrete_split` partition the rows: group `i` holds
      exactly the rows whose feature `f` is the `i`-th distinct value, it is
      not empty, the values are distinct, and the group sizes add up to the
      number of rows. */
  lemma DiscretePartition(rows: seq<Sample<Value>>, f: nat)
    ensures var us := Unique(Cells(rows, f));
      var gs := Groups(rows, f);
      && Distinct(us)
      && (forall i, s :: 0 <= i < |gs| ==> (s in gs[i] <==> s in rows && Cell(s, f) == us[i]))
      && (forall i :: 0 <= i < |gs| ==> gs[i] != [])
      && GroupSizes(rows, f, us) == |rows|
  {
    var us := Unique(Cells(rows, f));
    var gs := Groups(rows, f);
    forall i | 0 <= i < |gs|
      ensures forall s :: s in gs[i] <==> s in rows && Cell(s, f) == us[i]
      ensures gs[i] != []
    {
      MatchingHas(rows, f, us[i]);
      assert us[i] in Cells(rows, f);
      var k :| 0 <= k < |rows| && Cells(rows, f)[k] == us[i];
      assert rows[k] in gs[i];
    }
    forall i | 0 <= i < |rows| ensures Cell(rows[i], f) in us {
      assert Cells(rows, f)[i] == Cell(rows[i], f);
    }
    GroupSizesCover(rows, f, us);
  }

  // ---------------------------------------------------------------------
  // Keeping the first strictly greatest score

  /** The position a `max` loop settles on, starting from `-inf` and moving
      only to a strictly greater score; `None` scores are skipped. */
  function FirstBest(s: seq<Option<real>>): (r: Option<nat>)
    ensures r.Some? ==> r.value < |s| && s[r.value].Some?
  {
    if s == [] then None
    else
      var p := FirstBest(s[..|s| - 1]);
      var last := s[|s| - 1];
      if last.Some? && (p.None? || last.value > s[p.value].value) then Some(|s| - 1) else p
  }

  /** `FirstBest` finds nothing when nothing is scored, and otherwise the
      first of the greatest scores. */
  lemma {:induction false} FirstBestIsFirstMax(s: seq<Option<real>>)
    ensures var r := FirstBest(s);
      && (r.None? <==> forall j :: 0 <= j < |s| ==> s[j].None?)
      && (r.Some? ==> forall j :: 0 <= j < |s| && s[j].Some? ==> s[j].value <= s[r.value].value)
      && (r.Some? ==> forall j :: 0 <= j < r.value && s[j].Some? ==> s[j].value < s[r.value].value)
  {
    if s != [] {
      FirstBestIsFirstMax(s[..|s| - 1]);
      assert forall j :: 0 <= j < |s| - 1 ==> s[..|s| - 1][j] == s[j];
    }
  }

  /** One more score is one more turn of the `max` loop. */
  lemma FirstBestSnoc(s: seq<Option<real>>, x: Option<real>)
    ensures var p := FirstBest(s);
      FirstBest(s + [x]) == if x.Some? && (p.None? || x.value > s[p.value].value) then Some(|s|) else p
  {
    assert (s + [x])[..|s|] == s;
  }

  // ---------------------------------------------------------------------
  // Most common labels

  /** The most common labels, each once, in order of first appearance
      (`[item for item in set(y) if y.count(item) == max_count]`, whose
      order Python leaves unspecified). */
  function Modes(ys: seq<Value>): (ms: seq<Value>)
    requires ys != []
    ensures ms != []
  {
    var top := TopCount(ys, |ys|);
    TopCountIsMax(ys, |ys|);
    ModesUpToKeeps(ys, |ys|, top);
    assert ys[..|ys|] == ys;
    ModesUpTo(ys, |ys|, top)
  }

  /** `max(y.count(item) for item in set(y))`, over the first `n` labels. */
  function TopCount(ys: seq<Value>, n: nat): nat
    requires n <= |ys|
  {
    if n == 0 then 0
    else
      var t := TopCount(ys, n - 1);
      var c := Count(ys, ys[n - 1]);
      if c > t then c else t
  }

  /** The top count bounds the count of every one of the first `n` labels
      and, when there is one, is reached by one of them. */
  lemma {:induction false} TopCountIsMax(ys: seq<Value>, n: nat)
    requires n <= |ys|
    ensures forall j :: 0 <= j < n ==> Count(ys, ys[j]) <= TopCount(ys, n)
    ensures n > 0 ==> exists j :: 0 <= j < n && Count(ys, ys[j]) == TopCount(ys, n)
  {
    if n > 0 {
      TopCountIsMax(ys, n - 1);
      if n > 1 && Count(ys, ys[n - 1]) <= TopCount(ys, n - 1) {
        var j :| 0 <= j < n - 1 && Count(ys, ys[j]) == TopCount(ys, n - 1);
        assert Count(ys, ys[j]) == TopCount(ys, n);
      }
    }
  }

  /** The labels among the first `n` counted `top` times, each once, in
      order of first appearance. */
  function ModesUpTo(ys: seq<Value>, n: nat, top: nat): seq<Value>
    requires n <= |ys|
  {
    if n == 0 then []
    else
      var ms := ModesUpTo(ys, n - 1, top);
      var y := ys[n - 1];
      if Count(ys, y) == top && y !in ms then ms + [y] else ms
  }

  /** `ModesUpTo` keeps exactly the first `n` labels counted `top` times,
      with no repeats. */
  lemma {:induction false} ModesUpToKeeps(ys: seq<Value>, n: nat, top: nat)
    requires n <= |ys|
    ensures forall v :: v in ModesUpTo(ys, n, top) <==> v in ys[..n] && Count(ys, v) == top
    ensures Distinct(ModesUpTo(ys, n, top))
  {
    if n > 0 {
      ModesUpToKeeps(ys, n - 1, top);
      assert ys[..n] == ys[..n - 1] + [ys[n - 1]];
    }
  }

  /** `Modes` holds the most common labels and nothing else. */
  lemma ModesAreModes(ys: seq<Value>)
    requires ys != []
    ensures forall v :: v in Modes(ys) <==> IsMode(ys, v)
  {
    var top := TopCount(ys, |ys|);
    TopCountIsMax(ys, |ys|);
    ModesUpToKeeps(ys, |ys|, top);
    assert ys[..|ys|] == ys;
    var j :| 0 <= j < |ys| && Count(ys, ys[j]) == top;
    forall v | v in Modes(ys)
      ensures IsMode(ys, v)
    {
      forall w | w in ys
        ensures Count(ys, w) <= Count(ys, v)
      {
        var i :| 0 <= i < |ys| && ys[i] == w;
      }
    }
    forall v | IsMode(ys, v)
      ensures v in Modes(ys)
    {
      var i :| 0 <= i < |ys| && ys[i] == v;
      assert Count(ys, ys[j]) <= Count(ys, v);
    }
  }

  /** `random.choice(xs)`: the element at the index an outside source of
      randomness picks, counted round the list as often as it needs. */
  function Choice<T>(xs: seq<T>, pick: nat): (x: T)
    requires xs != []
    ensures x in xs
    ensures pick < |xs| ==> x == xs[pick]
    decreases pick
  {
    if pick < |xs| then xs[pick] else Choice(xs, pick - |xs|)
  }
}
