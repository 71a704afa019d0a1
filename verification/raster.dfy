/**
 * The raster-index convention shared by both readers and the PLOT3D writer.
 *
 * A Blazek file lists the points of an I x J grid left to right within a
 * row and rows bottom to top; the K-th listed point is stored in the
 * in-memory array at `[J - K/I - 1][K % I]`, i.e. rows counted from the top.
 */
module Raster {

  /** A 2-D array stored as rows, `g[row][col]`. */
  type Grid<T> = seq<seq<T>>

  /** `g` has exactly `rows` rows of exactly `cols` values each. */
  ghost predicate IsShape<T>(g: Grid<T>, rows: nat, cols: nat) {
    |g| == rows && forall r :: 0 <= r < rows ==> |g[r]| == cols
  }

  /** Every cell `[r][c]` with `r < rows` and `c < cols` exists (rows may be longer). */
  ghost predicate Covers<T>(g: Grid<T>, rows: nat, cols: nat) {
    |g| >= rows && forall r :: 0 <= r < rows ==> |g[r]| >= cols
  }

  /** `x * d` grows by `d` with each unit of `x`. */
  lemma MulStep(x: int, d: int)
    ensures (x + 1) * d == x * d + d
  {
  }

  /** A product of non-negative factors is non-negative. */
  lemma MulNonNegative(x: int, d: int)
    requires 0 <= x && 0 <= d
    ensures 0 <= x * d
  {
  }

  /** Multiplication by a non-negative factor is monotone. */
  lemma MulMonotone(x: int, y: int, d: int)
    requires x <= y && 0 <= d
    ensures x * d <= y * d
  {
    MulNonNegative(y - x, d);
    assert (y - x) * d == y * d - x * d;
  }

  /** Every layer covers the `rows` x `cols` cells. */
  ghost predicate CoversAll<T>(layers: seq<Grid<T>>, rows: nat, cols: nat) {
    forall k :: 0 <= k < |layers| ==> Covers(layers[k], rows, cols)
  }

  /** The values of all layers at cell `[r][c]`, in layer order. */
  function Point<T>(layers: seq<Grid<T>>, r: nat, c: nat): (p: seq<T>)
    requires forall k :: 0 <= k < |layers| ==> r < |layers[k]| && c < |layers[k][r]|
    ensures |p| == |layers|
    ensures forall k :: 0 <= k < |layers| ==> p[k] == layers[k][r][c]
  {
    seq(|layers|, k requires 0 <= k < |layers| => layers[k][r][c])
  }

  /** Division by a positive divisor has a unique quotient and remainder. */
  lemma DivModUnique(k: int, d: int, q: int, c: int)
    requires 0 < d && 0 <= c < d && k == q * d + c
    ensures k / d == q && k % d == c
  {
    var q', c' := k / d, k % d;
    assert k == q' * d + c';
    if q' < q {
      MulMonotone(q' + 1, q, d);
      MulStep(q', d);
    } else if q < q' {
      MulMonotone(q + 1, q', d);
      MulStep(q, d);
    }
  }

  /** `K < I * J` bounds the quotient `K / I` by `J`. */
  lemma QuotientBelow(K: nat, I: nat, J: nat)
    requires 0 < I && K < I * J
    ensures K / I < J
  {
    if J <= K / I {
      MulMonotone(J, K / I, I);
    }
  }

  /** The raster position of the point stored at `[r][c]` (r counted from the top). */
  function RasterIndex(I: nat, J: nat, r: nat, c: nat): (K: nat)
    requires r < J && c < I
    ensures K < I * J
  {
    MulStep(J - 1 - r, I);
    MulMonotone(J - r, J, I);
    (J - 1 - r) * I + c
  }

  /** The cell `(row from the top, column)` receiving the K-th listed point:
      column `K % I`, row `J - K/I - 1`. */
  function Cell(I: nat, J: nat, K: nat): (rc: (nat, nat))
    requires K < I * J
    ensures rc.0 < J && rc.1 < I
    ensures RasterIndex(I, J, rc.0, rc.1) == K
  {
    assert 0 < I;
    QuotientBelow(K, I, J);
    (J - K / I - 1, K % I)
  }

  /** Cell and raster index are mutually inverse: every cell of the J x I
      array has exactly one raster index, and vice versa. */
  lemma CellOfRasterIndex(I: nat, J: nat, r: nat, c: nat)
    requires r < J && c < I
    ensures Cell(I, J, RasterIndex(I, J, r, c)) == (r, c)
  {
    DivModUnique(RasterIndex(I, J, r, c), I, J - 1 - r, c);
  }

  /** Distinct raster indices land in distinct cells, so no point of the file
      overwrites another. */
  lemma CellInjective(I: nat, J: nat, K1: nat, K2: nat)
    requires K1 < I * J && K2 < I * J
    requires Cell(I, J, K1) == Cell(I, J, K2)
    ensures K1 == K2
  {
    var rc := Cell(I, J, K1);
    assert K1 == RasterIndex(I, J, rc.0, rc.1) == K2;
  }

  /** Every cell of the J x I array is the target of some raster index. */
  lemma CellSurjective(I: nat, J: nat, r: nat, c: nat)
    requires r < J && c < I
    ensures exists K :: 0 <= K < I * J && Cell(I, J, K) == (r, c)
  {
    CellOfRasterIndex(I, J, r, c);
  }

  /**
   * The J x I array obtained by storing the K-th value of `v` (file order) at
   * cell `Cell(I, J, K)`.
   */
  function Unravel<T>(v: seq<T>, I: nat, J: nat): (g: Grid<T>)
    requires |v| == I * J
    ensures IsShape(g, J, I)
    ensures forall K :: 0 <= K < I * J ==> g[Cell(I, J, K).0][Cell(I, J, K).1] == v[K]
  {
    var g := seq(J, r requires 0 <= r < J => seq(I, c requires 0 <= c < I => v[RasterIndex(I, J, r, c)]));
    assert forall K :: 0 <= K < I * J ==> g[Cell(I, J, K).0][Cell(I, J, K).1] == v[K] by {
      forall K | 0 <= K < I * J
        ensures g[Cell(I, J, K).0][Cell(I, J, K).1] == v[K]
      {
        var rc := Cell(I, J, K);
      }
    }
    g
  }

  /** Cell-wise reading of `Unravel`: cell `[r][c]` holds the value at raster index `RasterIndex(I, J, r, c)`. */
  lemma UnravelAt<T>(v: seq<T>, I: nat, J: nat, r: nat, c: nat)
    requires |v| == I * J && r < J && c < I
    ensures Unravel(v, I, J)[r][c] == v[RasterIndex(I, J, r, c)]
  {
    CellOfRasterIndex(I, J, r, c);
  }

  /**
   * The readers' storing loop: for K counting up from 0 while I * J values
   * remain, the K-th value goes to column `K % I` of row `J - K/I - 1` of a
   * J x I array initialised with `fill`. Every cell is written exactly once,
   * so the result is `Unravel(v, I, J)` whatever `fill` was.
   */
  method Scatter<T>(v: seq<T>, I: nat, J: nat, fill: T) returns (g: Grid<T>)
    requires |v| == I * J
    ensures g == Unravel(v, I, J)
  {
    g := seq(J, _ => seq(I, _ => fill));
    var K := 0;
    var cnt := I * J;
    while cnt > 0
      invariant 0 <= K <= I * J && cnt == I * J - K
      invariant IsShape(g, J, I)
      invariant forall r, c :: 0 <= r < J && 0 <= c < I ==>
        g[r][c] == if RasterIndex(I, J, r, c) < K then v[RasterIndex(I, J, r, c)] else fill
    {
      ghost var rc := Cell(I, J, K);
      var j := K % I;
      var i := J - K / I - 1;
      assert (i, j) == rc;
      forall r, c | 0 <= r < J && 0 <= c < I && (r, c) != (i, j)
        ensures RasterIndex(I, J, r, c) != K
      {
        CellOfRasterIndex(I, J, r, c);
      }
      g := g[i := g[i][j := v[K]]];
      K := K + 1;
      cnt := cnt - 1;
    }
    var u := Unravel(v, I, J);
    forall r | 0 <= r < J
      ensures g[r] == u[r]
    {
      forall c | 0 <= c < I
        ensures g[r][c] == u[r][c]
      {
        UnravelAt(v, I, J, r, c);
      }
    }
  }

  /** Putting the last row in front of the sweep of the others sweeps the whole grid. */
  lemma SweepStep<T>(g: Grid<T>, n: nat, rest: seq<T>, v: seq<T>)
    requires |g| >= 1 && forall r :: 0 <= r < |g| ==> |g[r]| >= n
    requires |rest| == (|g| - 1) * n
    requires forall r, c :: 0 <= r < |g| - 1 && 0 <= c < n ==> rest[RasterIndex(n, |g| - 1, r, c)] == g[r][c]
    requires v == g[|g| - 1][..n] + rest
    ensures |v| == |g| * n
    ensures forall r, c :: 0 <= r < |g| && 0 <= c < n ==> v[RasterIndex(n, |g|, r, c)] == g[r][c]
  {
    var m := |g|;
    MulStep(m - 1, n);
    forall r, c | 0 <= r < m && 0 <= c < n
      ensures v[RasterIndex(n, m, r, c)] == g[r][c]
    {
      if r < m - 1 {
        RasterIndexShift(n, m, r, c);
      } else {
        assert RasterIndex(n, m, r, c) == c;
      }
    }
  }

  /**
   * The values of the first `n` columns of `g`, rows from the last (bottom)
   * to the first (top), each row left to right: the order in which the
   * PLOT3D writer's nested loops visit the points.
   */
  function Sweep<T>(g: Grid<T>, n: nat): (v: seq<T>)
    requires forall r :: 0 <= r < |g| ==> |g[r]| >= n
    ensures |v| == |g| * n
    ensures forall r, c :: 0 <= r < |g| && 0 <= c < n ==> v[RasterIndex(n, |g|, r, c)] == g[r][c]
    decreases |g|
  {
    if |g| == 0 then []
    else
      var m := |g|;
      var rest := Sweep(g[..m - 1], n);
      var v := g[m - 1][..n] + rest;
      SweepStep(g, n, rest, v);
      v
  }

  /** Dropping the top row shifts every raster index of the grid below it by one row. */
  lemma RasterIndexShift(I: nat, J: nat, r: nat, c: nat)
    requires r + 1 < J && c < I
    ensures RasterIndex(I, J, r, c) == I + RasterIndex(I, J - 1, r, c)
  {
    MulStep(J - 2 - r, I);
  }

  /** Sweeping the grid a reader built reproduces the file's order of values. */
  lemma {:induction false} SweepUnravel<T>(v: seq<T>, I: nat, J: nat)
    requires |v| == I * J
    ensures Sweep(Unravel(v, I, J), I) == v
  {
    var g := Unravel(v, I, J);
    var w := Sweep(g, I);
    forall K | 0 <= K < I * J
      ensures w[K] == v[K]
    {
      var rc := Cell(I, J, K);
      assert w[RasterIndex(I, J, rc.0, rc.1)] == g[rc.0][rc.1];
    }
  }

  /** Conversely, re-reading a sweep with the raster convention rebuilds the grid. */
  lemma {:induction false} UnravelSweep<T>(g: Grid<T>, m: nat, n: nat)
    requires IsShape(g, m, n)
    ensures Unravel(Sweep(g, n), n, m) == g
  {
    var w := Sweep(g, n);
    var h := Unravel(w, n, m);
    forall r | 0 <= r < m
      ensures h[r] == g[r]
    {
      forall c | 0 <= c < n
        ensures h[r][c] == g[r][c]
      {
        UnravelAt(w, n, m, r, c);
      }
    }
  }

  /** Row r of the array holds the (J-1-r)-th group of I consecutive values of the file. */
  lemma UnravelRow<T>(v: seq<T>, I: nat, J: nat, r: nat)
    requires |v| == I * J && r < J
    ensures (J - 1 - r) * I + I <= |v|
    ensures Unravel(v, I, J)[r] == v[(J - 1 - r) * I .. (J - 1 - r) * I + I]
  {
    MulStep(J - 1 - r, I);
    MulMonotone(J - r, J, I);
    var lo := (J - 1 - r) * I;
    forall c | 0 <= c < I
      ensures Unravel(v, I, J)[r][c] == v[lo .. lo + I][c]
    {
      UnravelAt(v, I, J, r, c);
    }
  }

  /** A 3 x 2 example: the first listed row (y = 0) becomes the LAST row of the array. */
  lemma UnravelExample()
    ensures Unravel([0, 1, 2, 0, 1, 2], 3, 2) == [[0, 1, 2], [0, 1, 2]]
    ensures Unravel([0, 0, 0, 1, 1, 1], 3, 2) == [[1, 1, 1], [0, 0, 0]]
  {
    RowsExample([0, 1, 2, 0, 1, 2], [0, 1, 2], [0, 1, 2]);
    RowsExample([0, 0, 0, 1, 1, 1], [1, 1, 1], [0, 0, 0]);
  }

  /** A 3 x 2 array is its top row (the second listed) over its bottom row (the first listed). */
  lemma RowsExample(v: seq<int>, top: seq<int>, bottom: seq<int>)
    requires |v| == 6 && v[..3] == bottom && v[3..] == top
    ensures Unravel(v, 3, 2) == [top, bottom]
  {
    var g := Unravel(v, 3, 2);
    UnravelRow(v, 3, 2, 0);
    UnravelRow(v, 3, 2, 1);
    assert g[0] == v[3..6] == top;
    assert g[1] == v[0..3] == bottom;
  }
}
