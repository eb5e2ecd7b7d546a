/** Shared value types: optional values, results with an error, and the
    integer grids every board in the game engine is made of. */
module Outcomes {
  /** Python's `None` or a value. */
  datatype Option<+T> = None | Some(value: T)

  /** A value, or the exception the source raises instead of returning one. */
  datatype Result<+T, +E> = Ok(value: T) | Err(error: E)
}

module Grids {
  /** A rectangular board as a list of rows; a cell holds 0 (empty) or a piece. */
  type Grid = seq<seq<int>>

  predicate IsGrid(g: Grid, rows: nat, cols: nat)
  {
    |g| == rows && forall r :: 0 <= r < rows ==> |g[r]| == cols
  }

  predicate InBounds(rows: int, cols: int, r: int, c: int)
  {
    0 <= r < rows && 0 <= c < cols
  }

  /** The grid with one cell replaced. */
  function Set(g: Grid, r: nat, c: nat, v: int): (h: Grid)
    requires r < |g| && c < |g[r]|
    ensures |h| == |g| && forall i :: 0 <= i < |g| ==> |h[i]| == |g[i]|
  {
    g[r := g[r][c := v]]
  }

  /** Cells that differ between two grids of the same shape. */
  predicate SameExcept(g: Grid, h: Grid, r: int, c: int)
    requires |g| == |h| && forall i :: 0 <= i < |g| ==> |g[i]| == |h[i]|
  {
    forall i, j :: 0 <= i < |g| && 0 <= j < |g[i]| && (i != r || j != c) ==> h[i][j] == g[i][j]
  }

  /** Moving `i` steps from `x` in direction `d` (only the sign of `d` matters). */
  function Step(x: int, d: int, i: int): int
  {
    if d > 0 then x + i else if d < 0 then x - i else x
  }

  predicate IsDirection(dr: int, dc: int)
  {
    -1 <= dr <= 1 && -1 <= dc <= 1 && (dr != 0 || dc != 0)
  }

  /** The `n` cells starting at (r, c) in direction (dr, dc) are on the board
      and all hold `p`; with `n <= 0` this holds vacuously, as Python's `all`
      over an empty range does. */
  predicate Line(g: Grid, rows: nat, cols: nat, r: int, c: int, dr: int, dc: int, n: int, p: int)
    requires IsGrid(g, rows, cols)
  {
    forall i :: 0 <= i < n ==>
      InBounds(rows, cols, Step(r, dr, i), Step(c, dc, i)) && g[Step(r, dr, i)][Step(c, dc, i)] == p
  }

  /** Two grids of the same shape with equal cells are equal. */
  lemma GridEq(g: Grid, h: Grid, rows: nat, cols: nat)
    requires IsGrid(g, rows, cols) && IsGrid(h, rows, cols)
    requires forall i, j :: 0 <= i < rows && 0 <= j < cols ==> g[i][j] == h[i][j]
    ensures g == h
  {
    forall i | 0 <= i < rows
      ensures g[i] == h[i]
    {
      assert forall j :: 0 <= j < cols ==> g[i][j] == h[i][j];
    }
  }

  /** A line read from its other end, in the opposite direction. */
  lemma LineReverse(g: Grid, rows: nat, cols: nat, r: int, c: int, dr: int, dc: int, n: nat, p: int)
    requires IsGrid(g, rows, cols) && n > 0
    requires Line(g, rows, cols, r, c, dr, dc, n, p)
    ensures Line(g, rows, cols, Step(r, dr, n - 1), Step(c, dc, n - 1), -dr, -dc, n, p)
  {
    var r1, c1 := Step(r, dr, n - 1), Step(c, dc, n - 1);
    var er, ec := -dr, -dc;
    forall i | 0 <= i < n
      ensures InBounds(rows, cols, Step(r1, er, i), Step(c1, ec, i))
      ensures g[Step(r1, er, i)][Step(c1, ec, i)] == p
    {
      assert Step(r1, er, i) == Step(r, dr, n - 1 - i);
      assert Step(c1, ec, i) == Step(c, dc, n - 1 - i);
    }
  }

  predicate Increasing(s: seq<int>)
  {
    forall i, j :: 0 <= i < j < |s| ==> s[i] < s[j]
  }

  /** The indices from `c` on where `row` holds 0, in ascending order: the
      columns whose cell in that row is still free. */
  function ZeroesFrom(row: seq<int>, c: nat): (ms: seq<int>)
    ensures forall x :: x in ms <==> c <= x < |row| && row[x] == 0
    ensures Increasing(ms)
    ensures |ms| <= if c <= |row| then |row| - c else 0
    decreases |row| - c
  {
    if c >= |row| then []
    else
      var rest := ZeroesFrom(row, c + 1);
      if row[c] == 0 then
        assert forall j :: 0 <= j < |rest| ==> c < rest[j] by {
          forall j | 0 <= j < |rest| ensures c < rest[j] {
            assert rest[j] in rest;
          }
        }
        [c] + rest
      else rest
  }

  /** Number of occurrences of `x` in `s`, as Python's `list.count`. */
  function Count<T(==)>(s: seq<T>, x: T): (n: nat)
    ensures n <= |s|
    ensures n == 0 <==> x !in s
  {
    if s == [] then 0 else (if s[0] == x then 1 else 0) + Count(s[1..], x)
  }

  lemma {:induction false} CountAppend<T>(a: seq<T>, b: seq<T>, x: T)
    ensures Count(a + b, x) == Count(a, x) + Count(b, x)
  {
    if a == [] {
      assert a + b == b;
    } else {
      assert (a + b)[1..] == a[1..] + b;
      CountAppend(a[1..], b, x);
    }
  }

  /** Row-major flattening of a grid, as `for row in grid: out.extend(row)`. */
  function Flatten(g: Grid): seq<int>
  {
    if g == [] then [] else Flatten(g[..|g| - 1]) + g[|g| - 1]
  }

  /** The index where row `r` starts in a row-major flattening with `cols`
      cells per row, built up by additions so that proofs about it stay
      linear. */
  function Offset(r: nat, cols: nat): nat
  {
    if r == 0 then 0 else Offset(r - 1, cols) + cols
  }

  lemma {:induction false} OffsetIsProduct(r: nat, cols: nat)
    ensures Offset(r, cols) == r * cols
  {
    if r > 0 {
      OffsetIsProduct(r - 1, cols);
      assert (r - 1) * cols + cols == r * cols;
    }
  }

  lemma {:induction false} OffsetBelow(r: nat, n: nat, cols: nat, c: nat)
    requires r < n && c < cols
    ensures Offset(r, cols) + c < Offset(n, cols)
  {
    if r < n - 1 {
      OffsetBelow(r, n - 1, cols, c);
    }
  }

  lemma {:induction false} FlattenLength(g: Grid, rows: nat, cols: nat)
    requires IsGrid(g, rows, cols)
    ensures |Flatten(g)| == Offset(rows, cols)
  {
    if rows > 0 {
      FlattenLength(g[..rows - 1], rows - 1, cols);
    }
  }

  lemma OffsetsBelow(rows: nat, cols: nat)
    ensures forall r: nat :: r < rows ==> Offset(r, cols) + cols <= Offset(rows, cols)
  {
    forall r: nat | r < rows
      ensures Offset(r, cols) + cols <= Offset(rows, cols)
    {
      if cols > 0 {
        OffsetBelow(r, rows, cols, cols - 1);
      }
    }
  }

  /** Cell (r, c) of a grid sits at index `Offset(r, cols) + c` of its
      flattening. */
  lemma {:induction false} FlattenIndex(g: Grid, rows: nat, cols: nat, r: nat, c: nat)
    requires IsGrid(g, rows, cols) && r < rows && c < cols
    ensures |Flatten(g)| == Offset(rows, cols)
    ensures Offset(r, cols) + c < |Flatten(g)| && Flatten(g)[Offset(r, cols) + c] == g[r][c]
  {
    var p := g[..rows - 1];
    FlattenLength(g, rows, cols);
    FlattenLength(p, rows - 1, cols);
    OffsetBelow(r, rows, cols, c);
    assert Flatten(g) == Flatten(p) + g[rows - 1];
    if r < rows - 1 {
      FlattenIndex(p, rows - 1, cols, r, c);
      assert p[r][c] == g[r][c];
    }
  }
}
