/**
 * Readers for Blazek's line-oriented mesh (".grd") and flow (".v2d") files.
 *
 * A file is the sequence of its lines (index 0 is the first line). Numbers
 * are read with `Text.ExtractInt` for the header integers and with a
 * caller-supplied `Extractor<T>` for the coordinates and flow values.
 */
module Blazek {
  import opened Wrappers
  import opened Text
  import opened Raster

  /** Why a file could not be read; each carries the index of the offending line. */
  datatype ReadError =
    | Truncated(line: nat)        // the file ends before this line
    | MalformedHeader(line: nat)  // this line lacks the two integers it must start with
    | NegativeSize(line: nat)     // this line gives a negative array size
    | MalformedData(line: nat)    // this data line lacks one of its values

  /** A 2-D mesh: coordinate arrays of identical J x I shape. */
  datatype Mesh<T> = Mesh(x: Grid<T>, y: Grid<T>)

  /** N labelled layers, each a J x I array. */
  datatype FlowField<T> = FlowField(labels: seq<string>, layers: seq<Grid<T>>)

  /** Index of the ".grd" line holding the cell counts `I0 J0`. */
  const GrdSizeLine: nat := 3
  /** Index of the first ".grd" coordinate line. */
  const GrdDataStart: nat := 5
  /** Index of the ".v2d" line whose second integer is the layer count N. */
  const FlowCountLine: nat := 3

  /** Index of the first ".v2d" label line; the N labels follow one per line. */
  const FlowLabelStart: nat := 4

  /** The `j`-th value of every row. */
  function Column<T>(rows: seq<seq<T>>, j: nat): (col: seq<T>)
    requires forall K :: 0 <= K < |rows| ==> j < |rows[K]|
    ensures |col| == |rows|
    ensures forall K :: 0 <= K < |rows| ==> col[K] == rows[K][j]
  {
    seq(|rows|, K requires 0 <= K < |rows| => rows[K][j])
  }

  /**
   * Reads `count` data lines from `start` on, `width` values each; stops at
   * the first line that does not hold `width` values.
   */
  function ParseRows<T>(extract: Extractor<T>, lines: seq<string>, start: nat, count: nat, width: nat)
    : (r: Result<seq<seq<T>>, ReadError>)
    requires count == 0 || start + count <= |lines|
    ensures r.Ok? <==>
      forall l :: start <= l < start + count ==> ReadValues(extract, lines[l], width).Some?
    ensures r.Ok? ==> |r.value| == count
    ensures r.Ok? ==> forall K :: 0 <= K < count ==>
      ReadValues(extract, lines[start + K], width) == Some(r.value[K])
    ensures r.Err? ==>
      && r.error.MalformedData?
      && start <= r.error.line < start + count
      && ReadValues(extract, lines[r.error.line], width).None?
      && forall l :: start <= l < r.error.line ==> ReadValues(extract, lines[l], width).Some?
    decreases count
  {
    if count == 0 then Ok([])
    else
      match ReadValues(extract, lines[start], width)
      case None => Err(MalformedData(start))
      case Some(row) =>
        match ParseRows(extract, lines, start + 1, count - 1, width)
        case Err(e) => Err(e)
        case Ok(rows) =>
          Ok([row] + rows)
  }

  /** The file holds the `count` data lines from `start` on, and each holds `width` values. */
  ghost predicate RowsParse<T>(extract: Extractor<T>, lines: seq<string>, start: nat, count: int, width: nat) {
    && (count == 0 || start + count <= |lines|)
    && forall l :: start <= l < start + count ==> ReadValues(extract, lines[l], width).Some?
  }

  /**
   * The `I * J` data lines of a J x I grid from `start` on, `width` values
   * each: the file must hold them all, and each must parse.
   */
  function ReadRaster<T>(extract: Extractor<T>, lines: seq<string>, start: nat, I: nat, J: nat, width: nat)
    : (r: Result<seq<seq<T>>, ReadError>)
    ensures r.Ok? <==> RowsParse(extract, lines, start, I * J, width)
    ensures r.Ok? ==>
      && (I * J == 0 || start + I * J <= |lines|)
      && ParseRows(extract, lines, start, I * J, width) == r
    ensures r.Err? ==>
      || (r.error == Truncated(|lines|) && 0 < I * J && |lines| < start + I * J)
      || (r.error.MalformedData? && start <= r.error.line < |lines|
          && ReadValues(extract, lines[r.error.line], width).None?)
  {
    if I * J > 0 && |lines| < start + I * J then Err(Truncated(|lines|))
    else ParseRows(extract, lines, start, I * J, width)
  }

  /** The J x I mesh whose K-th raster point has coordinates `rows[K]`. */
  function MeshOfRows<T>(rows: seq<seq<T>>, I: nat, J: nat): (mesh: Mesh<T>)
    requires |rows| == I * J
    requires forall K :: 0 <= K < |rows| ==> |rows[K]| == 2
    ensures IsShape(mesh.x, J, I) && IsShape(mesh.y, J, I)
    ensures forall K :: 0 <= K < I * J ==>
      rows[K] == [mesh.x[Cell(I, J, K).0][Cell(I, J, K).1], mesh.y[Cell(I, J, K).0][Cell(I, J, K).1]]
  {
    var mesh := Mesh(Unravel(Column(rows, 0), I, J), Unravel(Column(rows, 1), I, J));
    assert forall K :: 0 <= K < I * J ==> rows[K] == [rows[K][0], rows[K][1]];
    mesh
  }

  /** Every layer has the cell the K-th raster point of a J x I grid goes to. */
  predicate CellOfEveryLayer<T>(layers: seq<Grid<T>>, I: nat, J: nat, K: nat)
    requires K < I * J
  {
    var rc := Cell(I, J, K);
    forall k :: 0 <= k < |layers| ==> rc.0 < |layers[k]| && rc.1 < |layers[k][rc.0]|
  }

  /**
   * N layers of shape J x I; the K-th raster point of layer k holds
   * `rows[K][k]`.
   */
  function LayersOfRows<T>(rows: seq<seq<T>>, N: nat, I: nat, J: nat): (layers: seq<Grid<T>>)
    requires |rows| == I * J
    requires forall K :: 0 <= K < |rows| ==> |rows[K]| == N
    ensures |layers| == N
    ensures forall k :: 0 <= k < N ==> IsShape(layers[k], J, I)
    ensures forall K :: 0 <= K < I * J ==>
      CellOfEveryLayer(layers, I, J, K) && rows[K] == Point(layers, Cell(I, J, K).0, Cell(I, J, K).1)
  {
    var layers := seq(N, k requires 0 <= k < N => Unravel(Column(rows, k), I, J));
    assert forall K :: 0 <= K < I * J ==> rows[K] == Point(layers, Cell(I, J, K).0, Cell(I, J, K).1) by {
      forall K | 0 <= K < I * J
        ensures rows[K] == Point(layers, Cell(I, J, K).0, Cell(I, J, K).1)
      {
        var rc := Cell(I, J, K);
        var p := Point(layers, rc.0, rc.1);
        assert forall k :: 0 <= k < N ==> p[k] == Column(rows, k)[K];
      }
    }
    layers
  }

  /** The point counts `(I0 + 1, J0 + 1)` of a ".grd" file, from its cell counts `I0 J0`. */
  function GrdSize(lines: seq<string>): (r: Option<(int, int)>)
    ensures r.Some? <==> GrdSizeLine < |lines| && ExtractTwoInts(lines[GrdSizeLine]).Some?
    ensures r.Some? ==>
      r.value == (ExtractTwoInts(lines[GrdSizeLine]).value.0 + 1, ExtractTwoInts(lines[GrdSizeLine]).value.1 + 1)
  {
    if |lines| <= GrdSizeLine then None
    else
      match ExtractTwoInts(lines[GrdSizeLine])
      case None => None
      case Some((i0, j0)) => Some((i0 + 1, j0 + 1))
  }

  /** A ".grd" file can be read: two non-negative point counts, and all coordinate lines hold `x y`. */
  ghost predicate GrdReadable<T>(extract: Extractor<T>, lines: seq<string>) {
    && GrdSize(lines).Some?
    && var (I, J) := GrdSize(lines).value;
    && 0 <= I && 0 <= J
    && RowsParse(extract, lines, GrdDataStart, I * J, 2)
  }

  /**
   * `mesh` is what a ".grd" file says: its point counts `I, J >= 0`, the
   * file has the `I * J` coordinate lines, X and Y have shape J x I, and the
   * K-th coordinate line holds `x y` of the cell `Cell(I, J, K)`.
   */
  ghost predicate GrdPlaced<T>(extract: Extractor<T>, lines: seq<string>, mesh: Mesh<T>)
    requires GrdSize(lines).Some?
  {
    var (i, j) := GrdSize(lines).value;
    && 0 <= i && 0 <= j
    && var I: nat, J: nat := i, j;
    && (I * J == 0 || GrdDataStart + I * J <= |lines|)
    && IsShape(mesh.x, J, I) && IsShape(mesh.y, J, I)
    && forall K :: 0 <= K < I * J ==>
         ReadValues(extract, lines[GrdDataStart + K], 2)
           == Some([mesh.x[Cell(I, J, K).0][Cell(I, J, K).1], mesh.y[Cell(I, J, K).0][Cell(I, J, K).1]])
  }

  /** The rows a ".grd" file's coordinate lines parse to, unravelled, place every line. */
  lemma GrdRowsPlaced<T>(extract: Extractor<T>, lines: seq<string>, rows: seq<seq<T>>, I: nat, J: nat)
    requires GrdSize(lines) == Some((I as int, J as int))
    requires I * J == 0 || GrdDataStart + I * J <= |lines|
    requires ParseRows(extract, lines, GrdDataStart, I * J, 2) == Ok(rows)
    ensures forall K :: 0 <= K < |rows| ==> |rows[K]| == 2
    ensures GrdPlaced(extract, lines, MeshOfRows(rows, I, J))
  {
    assert forall K :: 0 <= K < |rows| ==> ReadValues(extract, lines[GrdDataStart + K], 2) == Some(rows[K]);
  }

  /**
   * `Read_Blazek_grd`: three ignored lines, the cell counts `I0 J0`, one
   * ignored line, then `I * J` lines `x y` in raster order, with
   * `I = I0 + 1` and `J = J0 + 1`. The K-th coordinate line is stored at
   * `[J - K/I - 1][K % I]` of the J x I arrays.
   */
  function ReadGrd<T>(extract: Extractor<T>, lines: seq<string>): (r: Result<Mesh<T>, ReadError>)
    ensures GrdSize(lines).None? ==> r.Err? && r.error in {Truncated(|lines|), MalformedHeader(GrdSizeLine)}
    ensures GrdSize(lines).Some? && (GrdSize(lines).value.0 < 0 || GrdSize(lines).value.1 < 0) ==>
      r == Err(NegativeSize(GrdSizeLine))
    ensures r.Ok? <==> GrdReadable(extract, lines)
    ensures r.Ok? ==> GrdSize(lines).Some? && GrdPlaced(extract, lines, r.value)
    ensures r.Err? && r.error.MalformedData? ==>
      GrdDataStart <= r.error.line < |lines| && ReadValues(extract, lines[r.error.line], 2).None?
  {
    if |lines| <= GrdSizeLine then Err(Truncated(|lines|))
    else
      match GrdSize(lines)
      case None => Err(MalformedHeader(GrdSizeLine))
      case Some((i, j)) =>
        if i < 0 || j < 0 then Err(NegativeSize(GrdSizeLine))
        else
          var I: nat, J: nat := i, j;
          match ReadRaster(extract, lines, GrdDataStart, I, J, 2)
          case Err(e) => Err(e)
          case Ok(rows) =>
            GrdRowsPlaced(extract, lines, rows, I, J);
            Ok(MeshOfRows(rows, I, J))
  }

  /** The layer count N of a ".v2d" file: the SECOND integer of its count line. */
  function FlowCount(lines: seq<string>): (r: Option<int>)
    ensures r.Some? <==> FlowCountLine < |lines| && ExtractTwoInts(lines[FlowCountLine]).Some?
    ensures r.Some? ==> r.value == ExtractTwoInts(lines[FlowCountLine]).value.1
  {
    if |lines| <= FlowCountLine then None
    else
      match ExtractTwoInts(lines[FlowCountLine])
      case None => None
      case Some((_, n)) => Some(n)
  }

  /** Index of the ".v2d" line holding the point counts `I J`, after N labels. */
  function FlowSizeLine(N: nat): nat {
    FlowLabelStart + N
  }

  /** Index of the first ".v2d" data line: two ignored lines follow the size line. */
  function FlowDataStart(N: nat): nat {
    FlowSizeLine(N) + 3
  }

  /**
   * `layers` are what the data part of a ".v2d" file with N labels says:
   * the size line gives point counts `I J >= 0`, there are N layers of shape
   * J x I, and the K-th data line holds, in layer order, the values of the
   * cell `Cell(I, J, K)`.
   */
  ghost predicate FlowDataPlaced<T>(extract: Extractor<T>, lines: seq<string>, N: nat, layers: seq<Grid<T>>)
    requires FlowSizeLine(N) < |lines|
  {
    && ExtractTwoInts(lines[FlowSizeLine(N)]).Some?
    && var (I, J) := ExtractTwoInts(lines[FlowSizeLine(N)]).value;
    && 0 <= I && 0 <= J
    && (I * J == 0 || FlowDataStart(N) + I * J <= |lines|)
    && |layers| == N
    && (forall k :: 0 <= k < N ==> IsShape(layers[k], J, I))
    && forall K :: 0 <= K < I * J ==>
         CellOfEveryLayer(layers, I, J, K)
         && ReadValues(extract, lines[FlowDataStart(N) + K], N)
              == Some(Point(layers, Cell(I, J, K).0, Cell(I, J, K).1))
  }

  /** The data part of a ".v2d" file with N labels can be read: two
      non-negative point counts, and all data lines hold N values. */
  ghost predicate FlowDataReadable<T>(extract: Extractor<T>, lines: seq<string>, N: nat)
    requires FlowSizeLine(N) < |lines|
  {
    && ExtractTwoInts(lines[FlowSizeLine(N)]).Some?
    && var (I, J) := ExtractTwoInts(lines[FlowSizeLine(N)]).value;
    && 0 <= I && 0 <= J
    && RowsParse(extract, lines, FlowDataStart(N), I * J, N)
  }

  /** The rows a ".v2d" file's data lines parse to, split into layers, place every line. */
  lemma FlowRowsPlaced<T>(extract: Extractor<T>, lines: seq<string>, N: nat, rows: seq<seq<T>>, I: nat, J: nat)
    requires FlowSizeLine(N) < |lines|
    requires ExtractTwoInts(lines[FlowSizeLine(N)]) == Some((I as int, J as int))
    requires I * J == 0 || FlowDataStart(N) + I * J <= |lines|
    requires ParseRows(extract, lines, FlowDataStart(N), I * J, N) == Ok(rows)
    ensures forall K :: 0 <= K < |rows| ==> |rows[K]| == N
    ensures FlowDataPlaced(extract, lines, N, LayersOfRows(rows, N, I, J))
  {
    assert forall K :: 0 <= K < |rows| ==> ReadValues(extract, lines[FlowDataStart(N) + K], N) == Some(rows[K]);
  }

  /**
   * The part of a ".v2d" file after its N labels: a line `I J` of point
   * counts (used as they are, unlike the mesh header), two ignored lines,
   * then `I * J` lines of N values each in raster order. Value k of the K-th
   * data line is stored in layer k at `[J - K/I - 1][K % I]`.
   */
  function ReadFlowData<T>(extract: Extractor<T>, lines: seq<string>, N: nat): (r: Result<seq<Grid<T>>, ReadError>)
    requires FlowSizeLine(N) < |lines|
    ensures ExtractTwoInts(lines[FlowSizeLine(N)]).None? ==> r == Err(MalformedHeader(FlowSizeLine(N)))
    ensures r.Ok? <==> FlowDataReadable(extract, lines, N)
    ensures r.Ok? ==> FlowDataPlaced(extract, lines, N, r.value)
    ensures r.Err? && r.error.MalformedData? ==>
      r.error.line < |lines| && ReadValues(extract, lines[r.error.line], N).None?
  {
    match ExtractTwoInts(lines[FlowSizeLine(N)])
    case None => Err(MalformedHeader(FlowSizeLine(N)))
    case Some((i, j)) =>
      if i < 0 || j < 0 then Err(NegativeSize(FlowSizeLine(N)))
      else
        var I: nat, J: nat := i, j;
        match ReadRaster(extract, lines, FlowDataStart(N), I, J, N)
        case Err(e) => Err(e)
        case Ok(rows) =>
          FlowRowsPlaced(extract, lines, N, rows, I, J);
          Ok(LayersOfRows(rows, N, I, J))
  }

  /** The `count` lines from `start` on, each trimmed. */
  function TrimmedLines(lines: seq<string>, start: nat, count: nat): (r: seq<string>)
    requires start + count <= |lines|
    ensures |r| == count
    ensures forall i :: 0 <= i < count ==> r[i] == Trim(lines[start + i])
  {
    seq(count, i requires 0 <= i < count => Trim(lines[start + i]))
  }

  /**
   * `Read_Blazek_FlowV2D`: three ignored lines; a line whose second integer
   * is the layer count N (the first is read and discarded); N label lines,
   * each trimmed; then the grid data read by `ReadFlowData`.
   */
  function ReadFlowV2D<T>(extract: Extractor<T>, lines: seq<string>): (r: Result<FlowField<T>, ReadError>)
    ensures FlowCount(lines).None? ==>
      r.Err? && r.error in {Truncated(|lines|), MalformedHeader(FlowCountLine)}
    ensures FlowCount(lines).Some? && FlowCount(lines).value < 0 ==> r == Err(NegativeSize(FlowCountLine))
    ensures r.Ok? ==>
      && FlowCount(lines).Some? && 0 <= FlowCount(lines).value
      && var N: nat := FlowCount(lines).value;
      && FlowSizeLine(N) < |lines|
      && r.value.labels == TrimmedLines(lines, FlowLabelStart, N)
      && ReadFlowData(extract, lines, N) == Ok(r.value.layers)
    ensures FlowCount(lines).Some? && 0 <= FlowCount(lines).value && FlowSizeLine(FlowCount(lines).value) < |lines| ==>
      (r.Ok? <==> ReadFlowData(extract, lines, FlowCount(lines).value).Ok?)
  {
    if |lines| <= FlowCountLine then Err(Truncated(|lines|))
    else
      match FlowCount(lines)
      case None => Err(MalformedHeader(FlowCountLine))
      case Some(n) =>
        if n < 0 then Err(NegativeSize(FlowCountLine))
        else
          var N: nat := n;
          if |lines| <= FlowSizeLine(N) then Err(Truncated(|lines|))
          else
            var labels := TrimmedLines(lines, FlowLabelStart, N);
            match ReadFlowData(extract, lines, N)
            case Err(e) => Err(e)
            case Ok(layers) => Ok(FlowField(labels, layers))
  }
}
