/**
 * `PLOT3Dwrite2D`: writes a 2-D mesh as a single-block PLOT3D grid, one
 * value per line, with a constant zero third coordinate.
 */
module Plot3d {
  import opened Wrappers
  import opened Text
  import opened Raster

  /** Each value rendered on a line of its own. */
  function ShowAll<T>(show: T -> string, v: seq<T>): (lines: seq<string>)
    ensures |lines| == |v|
    ensures forall p :: 0 <= p < |v| ==> lines[p] == show(v[p])
  {
    seq(|v|, p requires 0 <= p < |v| => show(v[p]))
  }

  /** The block-dimensions line `n m 1`: the column count first. */
  function DimensionsLine(m: nat, n: nat): string {
    NatToString(n) + (" " + (NatToString(m) + " 1"))
  }

  /** One sweep: the values of the first n columns, rows m-1 down to 0. */
  function SweepLines<T>(show: T -> string, g: Grid<T>, m: nat, n: nat): (lines: seq<string>)
    requires Covers(g, m, n)
    ensures |lines| == m * n
    ensures forall i, j :: 0 <= i < m && 0 <= j < n ==> lines[RasterIndex(n, m, i, j)] == show(g[i][j])
  {
    var rows := g[..m];
    assert forall i :: 0 <= i < m ==> rows[i] == g[i];
    ShowAll(show, Sweep(rows, n))
  }

  /** The three sweeps X, Y and zeros, m*n lines each. */
  function Sweeps<T>(X: Grid<T>, Y: Grid<T>, m: nat, n: nat, show: T -> string, zero: T): (lines: seq<string>)
    requires Covers(X, m, n) && Covers(Y, m, n)
    ensures |lines| == 3 * (m * n)
    ensures forall i, j :: 0 <= i < m && 0 <= j < n ==> lines[RasterIndex(n, m, i, j)] == show(X[i][j])
    ensures forall i, j :: 0 <= i < m && 0 <= j < n ==> lines[m * n + RasterIndex(n, m, i, j)] == show(Y[i][j])
    ensures forall p :: 2 * (m * n) <= p < |lines| ==> lines[p] == show(zero)
  {
    var xs := SweepLines(show, X, m, n);
    var ys := SweepLines(show, Y, m, n);
    var zs := seq(m * n, _ => show(zero));
    xs + ys + zs
  }

  /**
   * The lines of the PLOT3D file for coordinate arrays X and Y
   * (m = `|X|`, n = `|X[0]|`): the block count 1, the dimensions `n m 1`,
   * then the three sweeps.
   */
  function Plot3dWrite2D<T>(X: Grid<T>, Y: Grid<T>, show: T -> string, zero: T): (lines: seq<string>)
    requires 1 <= |X|
    requires Covers(X, |X|, |X[0]|) && Covers(Y, |X|, |X[0]|)
    ensures |lines| == 2 + 3 * (|X| * |X[0]|)
    ensures lines[0] == "1"
    ensures lines[1] == DimensionsLine(|X|, |X[0]|)
    ensures lines[2..] == Sweeps(X, Y, |X|, |X[0]|, show, zero)
  {
    var m, n := |X|, |X[0]|;
    var body := Sweeps(X, Y, m, n, show, zero);
    ["1", DimensionsLine(m, n)] + body
  }

  /**
   * Where one grid point lands: with the rows swept from last to first,
   * `X[i][j]` is on line `2 + RasterIndex(n, m, i, j)` and `Y[i][j]` the
   * `m * n` lines after it.
   */
  lemma Plot3dAt<T>(X: Grid<T>, Y: Grid<T>, show: T -> string, zero: T, i: nat, j: nat)
    requires 1 <= |X|
    requires Covers(X, |X|, |X[0]|) && Covers(Y, |X|, |X[0]|)
    requires i < |X| && j < |X[0]|
    ensures var out := Plot3dWrite2D(X, Y, show, zero);
      var p := RasterIndex(|X[0]|, |X|, i, j);
      && 2 + |X| * |X[0]| + p < |out|
      && out[2 + p] == show(X[i][j])
      && out[2 + |X| * |X[0]| + p] == show(Y[i][j])
  {
    var out := Plot3dWrite2D(X, Y, show, zero);
    var p := RasterIndex(|X[0]|, |X|, i, j);
    assert out[2 + p] == out[2..][p];
    assert out[2 + |X| * |X[0]| + p] == out[2..][|X| * |X[0]| + p];
  }

  /** The last `m * n` lines are the zero Z sweep. */
  lemma Plot3dZeros<T>(X: Grid<T>, Y: Grid<T>, show: T -> string, zero: T)
    requires 1 <= |X|
    requires Covers(X, |X|, |X[0]|) && Covers(Y, |X|, |X[0]|)
    ensures var out := Plot3dWrite2D(X, Y, show, zero);
      forall p :: 2 + 2 * (|X| * |X[0]|) <= p < |out| ==> out[p] == show(zero)
  {
    var out := Plot3dWrite2D(X, Y, show, zero);
    forall p | 2 + 2 * (|X| * |X[0]|) <= p < |out|
      ensures out[p] == show(zero)
    {
      assert out[p] == out[2..][p - 2];
    }
  }

  /** Reading the first integer of the dimensions line yields n. */
  lemma ColumnsReadBack(m: nat, n: nat)
    ensures ExtractInt(DimensionsLine(m, n)) == Some((n, " " + (NatToString(m) + " 1")))
  {
    var line := DimensionsLine(m, n);
    assert "" + line == line;
    ExtractIntOfNat("", n, " " + (NatToString(m) + " 1"));
  }

  /** Reading the second integer of the dimensions line yields m, then 1 follows. */
  lemma RowsReadBack(m: nat)
    ensures ExtractInt(" " + (NatToString(m) + " 1")) == Some((m, " 1"))
    ensures ExtractInt(" 1") == Some((1, ""))
  {
    ExtractIntOfNat(" ", m, " 1");
    ExtractIntOfNat(" ", 1, "");
  }

  /** The dimensions line reads back, with three chained `>>`, as n, m and 1,
      leaving nothing unread. */
  lemma DimensionsReadBack(m: nat, n: nat)
    ensures ExtractInt(DimensionsLine(m, n)).Some?
    ensures var (a, r1) := ExtractInt(DimensionsLine(m, n)).value;
      && a == n && ExtractInt(r1).Some?
      && var (b, r2) := ExtractInt(r1).value;
      && b == m && ExtractInt(r2) == Some((1, ""))
  {
    ColumnsReadBack(m, n);
    RowsReadBack(m);
  }

  /** The 3 x 2 example grid (m = 2 rows, n = 3 columns) gets the dimensions line `3 2 1`. */
  lemma DimensionsExample()
    ensures DimensionsLine(2, 3) == "3 2 1"
  {
  }
}
