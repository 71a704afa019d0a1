/**
 * The two conversions the converter performs, each a reader followed by a
 * writer: ".grd" mesh to PLOT3D and Tecplot, and ".v2d" flow to Tecplot.
 * The lemmas trace every written value back to the line it was read from.
 */
module Conversions {
  import opened Wrappers
  import opened Text
  import opened Raster
  import opened Blazek
  import opened Tecplot
  import opened Plot3d

  /** The mesh a ".grd" file yields has the file's point counts as shape. */
  lemma GrdMeshShape<T>(extract: Extractor<T>, lines: seq<string>)
    requires ReadGrd(extract, lines).Ok?
    ensures GrdSize(lines).Some? && 0 <= GrdSize(lines).value.0 && 0 <= GrdSize(lines).value.1
    ensures var mesh := ReadGrd(extract, lines).value;
      && IsShape(mesh.x, GrdSize(lines).value.1, GrdSize(lines).value.0)
      && IsShape(mesh.y, GrdSize(lines).value.1, GrdSize(lines).value.0)
  {
    assert GrdPlaced(extract, lines, ReadGrd(extract, lines).value);
  }

  /**
   * The K-th coordinate line of a ".grd" file holds two values `x y`; `x`
   * is line `2 + K` of the PLOT3D file and `y` the line `I * J` further on.
   */
  ghost predicate CoordinateLineSwept<T>(extract: Extractor<T>, lines: seq<string>, show: T -> string,
                                         I: nat, J: nat, out: seq<string>, K: nat)
  {
    && GrdDataStart + K < |lines|
    && ReadValues(extract, lines[GrdDataStart + K], 2).Some?
    && 2 + I * J + K < |out|
    && out[2 + K] == show(ReadValues(extract, lines[GrdDataStart + K], 2).value[0])
    && out[2 + I * J + K] == show(ReadValues(extract, lines[GrdDataStart + K], 2).value[1])
  }

  /** The K-th coordinate line of a ".grd" file, as it reappears in the PLOT3D file. */
  lemma MeshLineInPlot3d<T>(extract: Extractor<T>, lines: seq<string>, show: T -> string, zero: T,
                            mesh: Mesh<T>, I: nat, J: nat, K: nat)
    requires GrdSize(lines) == Some((I as int, J as int))
    requires GrdPlaced(extract, lines, mesh)
    requires K < I * J
    ensures |mesh.x| == J && |mesh.x[0]| == I
    ensures Covers(mesh.x, J, I) && Covers(mesh.y, J, I)
    ensures CoordinateLineSwept(extract, lines, show, I, J, Plot3dWrite2D(mesh.x, mesh.y, show, zero), K)
  {
    var rc := Cell(I, J, K);
    assert ReadValues(extract, lines[GrdDataStart + K], 2) == Some([mesh.x[rc.0][rc.1], mesh.y[rc.0][rc.1]]);
    assert |mesh.x| == J && |mesh.x[0]| == I;
    Plot3dAt(mesh.x, mesh.y, show, zero, rc.0, rc.1);
  }

  /** Every coordinate line of a ".grd" file, as it reappears in the PLOT3D file of the mesh it placed. */
  lemma MeshInPlot3d<T>(extract: Extractor<T>, lines: seq<string>, show: T -> string, zero: T,
                        mesh: Mesh<T>, I: nat, J: nat)
    requires GrdSize(lines) == Some((I as int, J as int))
    requires GrdPlaced(extract, lines, mesh)
    requires 1 <= J
    ensures 1 <= |mesh.x| && Covers(mesh.x, |mesh.x|, |mesh.x[0]|) && Covers(mesh.y, |mesh.x|, |mesh.x[0]|)
    ensures var out := Plot3dWrite2D(mesh.x, mesh.y, show, zero);
      && |out| == 2 + 3 * (I * J)
      && out[1] == DimensionsLine(J, I)
      && forall K :: 0 <= K < I * J ==> CoordinateLineSwept(extract, lines, show, I, J, out, K)
  {
    assert |mesh.x| == J && |mesh.x[0]| == I;
    forall K | 0 <= K < I * J {
      MeshLineInPlot3d(extract, lines, show, zero, mesh, I, J, K);
    }
  }

  /**
   * ".grd" to PLOT3D. The dimensions line names the point counts in the
   * file's own order `I J 1`, and the X and Y sweeps list the x and y
   * columns of the coordinate lines in the order the file lists them.
   */
  lemma GrdToPlot3d<T>(extract: Extractor<T>, lines: seq<string>, show: T -> string, zero: T)
    requires ReadGrd(extract, lines).Ok?
    requires 1 <= |ReadGrd(extract, lines).value.x|
    ensures
      var mesh := ReadGrd(extract, lines).value;
      var (I, J) := GrdSize(lines).value;
      && 0 <= I && 0 <= J
      && Covers(mesh.x, |mesh.x|, |mesh.x[0]|) && Covers(mesh.y, |mesh.x|, |mesh.x[0]|)
      && var out := Plot3dWrite2D(mesh.x, mesh.y, show, zero);
      && |out| == 2 + 3 * (I * J)
      && out[1] == DimensionsLine(J, I)
      && forall K :: 0 <= K < I * J ==> CoordinateLineSwept(extract, lines, show, I, J, out, K)
  {
    var mesh := ReadGrd(extract, lines).value;
    assert GrdPlaced(extract, lines, mesh);
    var (i, j) := GrdSize(lines).value;
    var I: nat, J: nat := i, j;
    assert |mesh.x| == J;
    MeshInPlot3d(extract, lines, show, zero, mesh, I, J);
  }

  /**
   * The K-th coordinate line of a ".grd" file holds two values, and the
   * Tecplot line of the point it is stored at lists exactly those values.
   */
  ghost predicate CoordinateLineWritten<T>(extract: Extractor<T>, lines: seq<string>, show: T -> string,
                                           I: nat, J: nat, out: seq<string>, K: nat)
  {
    && K < I * J
    && GrdDataStart + K < |lines|
    && ReadValues(extract, lines[GrdDataStart + K], 2).Some?
    && 4 + TecplotRow(J, I, Cell(I, J, K).0, Cell(I, J, K).1) < |out|
    && out[4 + TecplotRow(J, I, Cell(I, J, K).0, Cell(I, J, K).1)]
         == RowText(show, ReadValues(extract, lines[GrdDataStart + K], 2).value)
  }

  /** The K-th coordinate line of a ".grd" file, as it reappears in the Tecplot file. */
  lemma MeshLineInTecplot<T>(extract: Extractor<T>, lines: seq<string>, show: T -> string,
                             mesh: Mesh<T>, I: nat, J: nat, K: nat)
    requires GrdSize(lines) == Some((I as int, J as int))
    requires GrdPlaced(extract, lines, mesh)
    requires K < I * J
    ensures |mesh.x| == J && |mesh.x[0]| == I
    ensures CoversAll([mesh.x, mesh.y], J, I)
    ensures CoordinateLineWritten(extract, lines, show, I, J, TecplotWrite2D([mesh.x, mesh.y], ["x", "y"], show), K)
  {
    var rc := Cell(I, J, K);
    assert ReadValues(extract, lines[GrdDataStart + K], 2) == Some([mesh.x[rc.0][rc.1], mesh.y[rc.0][rc.1]]);
    var data := [mesh.x, mesh.y];
    assert |mesh.x| == J && |mesh.x[0]| == I;
    assert CoversAll(data, J, I);
    assert Point(data, rc.0, rc.1) == [mesh.x[rc.0][rc.1], mesh.y[rc.0][rc.1]];
  }

  /**
   * ".grd" to Tecplot, as the converter calls it with the layers `{X, Y}`
   * and the labels `{"x", "y"}`: the variables are `x` and `y`, the zone is
   * `I = J, J = I` of the file's point counts, and the Tecplot line of the
   * point a coordinate line is stored at repeats that line's two values.
   */
  lemma GrdToTecplot<T>(extract: Extractor<T>, lines: seq<string>, show: T -> string)
    requires ReadGrd(extract, lines).Ok?
    requires 1 <= |ReadGrd(extract, lines).value.x|
    ensures
      var mesh := ReadGrd(extract, lines).value;
      var (I, J) := GrdSize(lines).value;
      && 0 <= I && 1 <= J
      && |mesh.x| == J && |mesh.x[0]| == I
      && CoversAll([mesh.x, mesh.y], J, I)
      && var out := TecplotWrite2D([mesh.x, mesh.y], ["x", "y"], show);
      && out[..4] == TecplotHeader(["x", "y"], J, I)
      && forall K :: 0 <= K < I * J ==> CoordinateLineWritten(extract, lines, show, I, J, out, K)
  {
    GrdMeshShape(extract, lines);
    var mesh := ReadGrd(extract, lines).value;
    assert GrdPlaced(extract, lines, mesh);
    var (i, j) := GrdSize(lines).value;
    var I: nat, J: nat := i, j;
    assert |mesh.x| == J && |mesh.x[0]| == I;
    var data := [mesh.x, mesh.y];
    assert CoversAll(data, J, I);
    var names := VariableNames(["x", "y"], |data|);
    assert names == names[..2] == ["x", "y"];
    forall K | 0 <= K < I * J {
      MeshLineInTecplot(extract, lines, show, mesh, I, J, K);
    }
  }

  /** The point counts `(I, J)` a ".v2d" file states on its size line. */
  function FlowSize<T>(extract: Extractor<T>, lines: seq<string>): (size: (int, int))
    requires ReadFlowV2D(extract, lines).Ok?
    ensures size == ExtractTwoInts(lines[FlowSizeLine(|ReadFlowV2D(extract, lines).value.labels|)]).value
  {
    var f := ReadFlowV2D(extract, lines).value;
    assert FlowDataPlaced(extract, lines, |f.labels|, f.layers);
    ExtractTwoInts(lines[FlowSizeLine(|f.labels|)]).value
  }

  /** The flow field a ".v2d" file yields: N labels, N layers of the file's J x I shape. */
  lemma FlowFieldShape<T>(extract: Extractor<T>, lines: seq<string>)
    requires ReadFlowV2D(extract, lines).Ok?
    ensures var f := ReadFlowV2D(extract, lines).value;
      var (I, J) := FlowSize(extract, lines);
      && 0 <= I && 0 <= J
      && |f.layers| == |f.labels|
      && (forall k :: 0 <= k < |f.layers| ==> IsShape(f.layers[k], J, I))
      && CoversAll(f.layers, J, I)
  {
    var f := ReadFlowV2D(extract, lines).value;
    assert FlowDataPlaced(extract, lines, |f.labels|, f.layers);
  }

  /**
   * Data line `l` of a ".v2d" file holds N values, and the Tecplot line of
   * point `[i][j]` of a J x I zone lists exactly those values.
   */
  ghost predicate DataLineWritten<T>(extract: Extractor<T>, lines: seq<string>, show: T -> string,
                                     N: nat, I: nat, J: nat, out: seq<string>, i: nat, j: nat)
  {
    && i < J && j < I
    && FlowDataStart(N) + RasterIndex(I, J, i, j) < |lines|
    && ReadValues(extract, lines[FlowDataStart(N) + RasterIndex(I, J, i, j)], N).Some?
    && 4 + TecplotRow(J, I, i, j) < |out|
    && out[4 + TecplotRow(J, I, i, j)]
         == RowText(show, ReadValues(extract, lines[FlowDataStart(N) + RasterIndex(I, J, i, j)], N).value)
  }

  /** The data line of point `[i][j]` holds that point's values, in layer order. */
  lemma FieldPointValues<T>(extract: Extractor<T>, lines: seq<string>, f: FlowField<T>, I: nat, J: nat, i: nat, j: nat)
    requires FlowSizeLine(|f.labels|) < |lines|
    requires ExtractTwoInts(lines[FlowSizeLine(|f.labels|)]) == Some((I as int, J as int))
    requires FlowDataPlaced(extract, lines, |f.labels|, f.layers)
    requires i < J && j < I
    ensures |f.layers| == |f.labels|
    ensures 1 <= |f.layers| ==> |f.layers[0]| == J && |f.layers[0][0]| == I
    ensures CoversAll(f.layers, J, I)
    ensures FlowDataStart(|f.labels|) + RasterIndex(I, J, i, j) < |lines|
    ensures ReadValues(extract, lines[FlowDataStart(|f.labels|) + RasterIndex(I, J, i, j)], |f.labels|)
              == Some(Point(f.layers, i, j))
  {
    var N := |f.labels|;
    var K := RasterIndex(I, J, i, j);
    CellOfRasterIndex(I, J, i, j);
    assert CellOfEveryLayer(f.layers, I, J, K);
    if 1 <= |f.layers| {
      assert IsShape(f.layers[0], J, I);
    }
  }

  /** A point whose data line holds its values is written as that line's values. */
  lemma FieldRowInTecplot<T>(extract: Extractor<T>, lines: seq<string>, show: T -> string,
                             f: FlowField<T>, I: nat, J: nat, i: nat, j: nat)
    requires i < J && j < I
    requires 1 <= |f.layers| && |f.layers[0]| == J && |f.layers[0][0]| == I
    requires CoversAll(f.layers, J, I)
    requires FlowDataStart(|f.labels|) + RasterIndex(I, J, i, j) < |lines|
    requires ReadValues(extract, lines[FlowDataStart(|f.labels|) + RasterIndex(I, J, i, j)], |f.labels|)
               == Some(Point(f.layers, i, j))
    ensures DataLineWritten(extract, lines, show, |f.labels|, I, J, TecplotWrite2D(f.layers, f.labels, show), i, j)
  {
  }

  /** Every point of the data part of a ".v2d" file reappears on its Tecplot line. */
  lemma FieldInTecplot<T>(extract: Extractor<T>, lines: seq<string>, show: T -> string, f: FlowField<T>, I: nat, J: nat)
    requires FlowSizeLine(|f.labels|) < |lines|
    requires ExtractTwoInts(lines[FlowSizeLine(|f.labels|)]) == Some((I as int, J as int))
    requires FlowDataPlaced(extract, lines, |f.labels|, f.layers)
    requires 1 <= |f.layers| && 1 <= |f.layers[0]|
    ensures CoversAll(f.layers, |f.layers[0]|, |f.layers[0][0]|)
    ensures forall i: nat, j: nat :: i < J && j < I ==>
      DataLineWritten(extract, lines, show, |f.labels|, I, J, TecplotWrite2D(f.layers, f.labels, show), i, j)
  {
    assert IsShape(f.layers[0], J, I);
    forall i: nat, j: nat | i < J && j < I
      ensures DataLineWritten(extract, lines, show, |f.labels|, I, J, TecplotWrite2D(f.layers, f.labels, show), i, j)
    {
      FieldPointValues(extract, lines, f, I, J, i, j);
      FieldRowInTecplot(extract, lines, show, f, I, J, i, j);
    }
  }

  /** The Tecplot header of a ".v2d" file names the file's own labels as the variables. */
  lemma FlowHeaderInTecplot<T>(extract: Extractor<T>, lines: seq<string>, show: T -> string)
    requires ReadFlowV2D(extract, lines).Ok?
    requires 1 <= |ReadFlowV2D(extract, lines).value.layers|
    requires 1 <= |ReadFlowV2D(extract, lines).value.layers[0]|
    ensures
      var f := ReadFlowV2D(extract, lines).value;
      var (I, J) := FlowSize(extract, lines);
      && 0 <= I && 1 <= J
      && CoversAll(f.layers, |f.layers[0]|, |f.layers[0][0]|)
      && TecplotWrite2D(f.layers, f.labels, show)[..4] == TecplotHeader(f.labels, J, I)
  {
    var f := ReadFlowV2D(extract, lines).value;
    FlowFieldShape(extract, lines);
    var (I, J) := FlowSize(extract, lines);
    assert |f.layers[0]| == J && |f.layers[0][0]| == I;
    var names := VariableNames(f.labels, |f.layers|);
    assert names == names[..|f.labels|] == f.labels;
  }

  /**
   * ".v2d" to Tecplot. The file's N labels name the N variables as they
   * are (no `V<i>` is synthesised), the zone is `I = J, J = I` of the
   * file's point counts, and the data line of point `[i][j]` lists, in
   * layer order, the N values the file gives for that point.
   */
  lemma FlowToTecplot<T>(extract: Extractor<T>, lines: seq<string>, show: T -> string)
    requires ReadFlowV2D(extract, lines).Ok?
    requires 1 <= |ReadFlowV2D(extract, lines).value.layers|
    requires 1 <= |ReadFlowV2D(extract, lines).value.layers[0]|
    ensures
      var f := ReadFlowV2D(extract, lines).value;
      var (I, J) := FlowSize(extract, lines);
      && 0 <= I && 1 <= J
      && CoversAll(f.layers, |f.layers[0]|, |f.layers[0][0]|)
      && var out := TecplotWrite2D(f.layers, f.labels, show);
      && out[..4] == TecplotHeader(f.labels, J, I)
      && forall i: nat, j: nat :: i < J && j < I ==>
           DataLineWritten(extract, lines, show, |f.labels|, I, J, out, i, j)
  {
    FlowHeaderInTecplot(extract, lines, show);
    var f := ReadFlowV2D(extract, lines).value;
    var N := |f.labels|;
    assert FlowDataPlaced(extract, lines, N, f.layers);
    var (I', J') := FlowSize(extract, lines);
    var I: nat, J: nat := I', J';
    FieldInTecplot(extract, lines, show, f, I, J);
  }
}
