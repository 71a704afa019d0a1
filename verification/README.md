# Blazek structured-mesh converter, modelled in Dafny

The converter in `src/main.cpp` reads the line-oriented files of Blazek's
structured Euler code and writes them out for plotting programs:

- a ".grd" mesh becomes a PLOT3D grid and a Tecplot file (`Read_Blazek_grd`,
  then `PLOT3Dwrite2D` and `tecplotWrite2D`);
- a ".v2d" flow file becomes a Tecplot file (`Read_Blazek_FlowV2D`, then
  `tecplotWrite2D`).

Both Blazek formats list the points of an I x J grid in raster order. The
values run left to right within a row, and the rows run bottom to top. The
K-th listed point is stored at `[J - K/I - 1][K % I]` of a J x I array, so
array row 0 is the top row, the last one in the file. For example, for 3 x 2
points listed `0 0`, `1 0`, `2 0`, `0 1`, `1 1`, `2 1`, the first listed row
is stored last: `Y = [[1,1,1],[0,0,0]]` (`Raster.UnravelExample`). The PLOT3D writer
sweeps the rows from last to first and so restores the file order. The
Tecplot writer goes column by column instead: j goes up in the outer loop
and i goes down in the inner loop.

How the model represents the program:

- A file is the sequence of its lines (`seq<string>`).
- A coordinate or flow value is an opaque `T`. It is read through an
  `Extractor<T>` parameter, the model of `iss >> v`, and written through a
  `show: T -> string` parameter, the model of `file << v`.
- The header integers are read by `Text.ExtractInt`, a model of `>>` into
  an `int`. Sizes are written by `Text.NatToString`.
- The readers return a `Result`. When the C++ would go on with garbage,
  behave undefined or throw, the model returns a `ReadError` instead:
  `Truncated`, `MalformedHeader`, `NegativeSize` or `MalformedData`.
- The writers return the lines of the file they write.

Modules, following the source:

- `Text`: `trim`, integer extraction and rendering.
- `Raster`: the raster-index map, the store loop and the PLOT3D sweep.
- `Blazek`: the two readers.
- `Tecplot`: `tecplotWrite2D`.
- `Plot3d`: `PLOT3Dwrite2D`.
- `Conversions`: the two conversions `main` performs, each a reader composed
  with its writers. These lemmas trace every written value back to the
  input line it came from.
- `Wrappers`: `Option` and `Result`.

## Model

| member | source | states |
|---|---|---|
| Text.Trim | src/main.cpp:18-29 | The result is the input with a leading and a trailing run of whitespace removed, and it neither starts nor ends with whitespace. It is empty exactly when the input is all whitespace. |
| Text.TrimUnique | src/main.cpp:18-29 | Any slice that drops only whitespace at both ends and keeps no whitespace at its own ends is `Trim(s)`, so trimming is well defined. |
| Text.TrimIdempotent | src/main.cpp:18-29 | Trimming an already trimmed label changes nothing. |
| Text.ExtractInt | src/main.cpp:221 | `>>` into an int fails exactly when no digit follows the leading whitespace and an optional sign. On success, the unread rest is a proper suffix of the line that does not start with a digit. |
| Text.ExtractTwoInts | src/main.cpp:221 | `iss >> a >> b` succeeds exactly when both integer reads succeed, the second starting where the first stopped. The pair is their two values. The same read is used at lines 265 and 277. |
| Text.ReadValues | src/main.cpp:239 | Reading n values from one line, as `iss >> x >> y` does here and the loop at lines 296-298 does for N values, gives exactly n values or fails. Reading none always succeeds. |
| Text.ReadValuesStep | src/main.cpp:296-298 | n values are read exactly when one extraction succeeds and the other n - 1 are read from where it stopped. The first value is that extraction's, followed by the rest in order. |
| Text.NatToString | src/main.cpp:175 | A size is written as a non-empty decimal digit string whose value is the size. It starts with `0` only when it is exactly `"0"`. |
| Text.ExtractIntOfNat | src/main.cpp:175 | Reading back a written size, after any whitespace, yields that size and stops exactly where its digits end. |
| Raster.Cell | src/main.cpp:234-235 | The cell `(J - K/I - 1, K % I)` receiving the K-th listed point lies inside the J x I array, and its raster index is K. |
| Raster.CellOfRasterIndex | src/main.cpp:234-235 | The cell of the raster index of a cell is that cell, so the index map and the cell map are mutually inverse. |
| Raster.CellInjective | src/main.cpp:233-243 | Two distinct listed points never land in the same cell, so no value read overwrites another. |
| Raster.CellSurjective | src/main.cpp:233-243 | Every cell of the J x I array receives some listed point, so no cell keeps its initial value. |
| Raster.Unravel | src/main.cpp:227-243 | The array built from `I * J` listed values has shape J x I, and the K-th value sits at the K-th point's cell. |
| Raster.UnravelRow | src/main.cpp:233-243 | Row r of the array holds the (J-1-r)-th group of I consecutive listed values. |
| Raster.UnravelExample | src/main.cpp:233-243 | For 3 x 2 points, the first listed row (y = 0) becomes the last array row: Y is `[[1,1,1],[0,0,0]]`. |
| Raster.Scatter | src/main.cpp:227-243 | The store loop over an array filled with any initial value yields exactly `Unravel` of the values read. |
| Raster.Sweep | src/main.cpp:177-181 | Sweeping rows last to first, each row left to right, lists value `[r][c]` at its raster index. |
| Raster.SweepUnravel | src/main.cpp:177-181 | Sweeping an array a reader built gives back the values in the order the file listed them. |
| Raster.UnravelSweep | src/main.cpp:233-243 | Storing a sweep with the readers' map rebuilds the swept array. |
| Blazek.ParseRows | src/main.cpp:237-239 | The data lines parse exactly when each holds the required number of values, and row K is the values of line `start + K`. A failure names the first line lacking a value. |
| Blazek.ReadRaster | src/main.cpp:230-243 | The read succeeds exactly when the file holds all `I * J` data lines and each holds the required number of values. A failure is either truncation, reported at the end of the file, or a named line lacking a value. |
| Blazek.MeshOfRows | src/main.cpp:227-241 | X and Y have shape J x I, and the K-th coordinate line's `x y` are X and Y at the K-th point's cell. |
| Blazek.LayersOfRows | src/main.cpp:283-298 | There are N layers of shape J x I, and value k of the K-th data line is layer k at the K-th point's cell. |
| Blazek.GrdSize | src/main.cpp:219-222 | The point counts are the two cell counts on line 4, each plus one. They are absent exactly when that line is missing or lacks two integers. |
| Blazek.GrdRowsPlaced | src/main.cpp:233-243 | The parsed coordinate lines, once stored, put every line's `x y` at that line's cell of X and Y. |
| Blazek.ReadGrd | src/main.cpp:205-245 | The read succeeds exactly when the size line gives two non-negative point counts and every coordinate line holds `x y`. A missing or malformed size line and negative point counts are errors. A mesh read has the file's J x I shape, with every coordinate line's values at that line's cell. A data error names a line that lacks `x y`. |
| Blazek.FlowCount | src/main.cpp:262-265 | The layer count is the second of the two integers on line 4; the first is discarded. |
| Blazek.TrimmedLines | src/main.cpp:268-273 | The labels are the N lines after the count line, in order, each trimmed. |
| Blazek.FlowRowsPlaced | src/main.cpp:288-300 | The parsed data lines, once stored, put value k of every line at that line's cell of layer k. |
| Blazek.ReadFlowData | src/main.cpp:275-300 | The read succeeds exactly when the size line after the labels gives two non-negative point counts and every data line holds N values. The layers read match the file point for point: N layers of shape J x I, and the values of each data line at its cell. |
| Blazek.ReadFlowV2D | src/main.cpp:247-301 | A missing, malformed or negative count is an error. On success the labels are the trimmed label lines and the layers are what the data part says. The file reads successfully exactly when its data part does. |
| Tecplot.VariableNames | src/main.cpp:137-141 | The labels are kept in order, then `V<p+1>` names each layer p that has no label. There are as many names as the larger of the label count and N. |
| Tecplot.QuotedListRoundTrip | src/main.cpp:145-152 | The VARIABLES line parses back to exactly the variable names, in order, when no name contains a double quote. |
| Tecplot.Points | src/main.cpp:157-164 | The writer's loops visit each point exactly once, `[i][j]` at position `j*m + (m-1-i)` (see `Tecplot.TecplotRowOnto` and `Tecplot.TecplotRowInjective`), and collect the values of all layers there. |
| Tecplot.TecplotRowOnto | src/main.cpp:157-164 | Each data position `p < m*n` is the Tecplot row of the point in column `p / m` and row `m - 1 - p % m`, so the data lines cover every position. |
| Tecplot.TecplotRowInjective | src/main.cpp:157-164 | Two distinct points never share a data line. |
| Tecplot.TecplotWrite2D | src/main.cpp:134-166 | There are four header lines: title, variable names, `zone I = m, J = n`, and packing. Then come `m * n` data lines, where the line of point `[i][j]` lists that point's values in layer order. |
| Plot3d.SweepLines | src/main.cpp:177-181 | One sweep puts the value of `[i][j]` on the line at its raster index. |
| Plot3d.Sweeps | src/main.cpp:177-193 | The X, Y and zero sweeps each take `m * n` lines, in that order. |
| Plot3d.Plot3dWrite2D | src/main.cpp:168-195 | The file has `2 + 3*m*n` lines: the block count `1`, the dimensions `n m 1`, then the three sweeps. |
| Plot3d.Plot3dAt | src/main.cpp:177-187 | `X[i][j]` is on line `2 + RasterIndex(n, m, i, j)`, and `Y[i][j]` is `m * n` lines later. |
| Plot3d.Plot3dZeros | src/main.cpp:189-193 | The last `m * n` lines all hold the zero Z coordinate. |
| Plot3d.DimensionsReadBack | src/main.cpp:175 | Reading the dimensions line with three chained `>>` gives back n, m and 1 and leaves nothing unread. |
| Plot3d.DimensionsExample | src/main.cpp:175 | A grid of 3 x 2 points gets the dimensions line `3 2 1`. |
| Conversions.GrdMeshShape | src/main.cpp:227-228 | A mesh read from a ".grd" file has the file's point counts as its shape. |
| Conversions.MeshInPlot3d | src/main.cpp:177-187 | For any mesh placed by a ".grd" file, the x and y of the K-th coordinate line are PLOT3D lines `2 + K` and `2 + I*J + K`. |
| Conversions.GrdToPlot3d | src/main.cpp:80-87 | For ".grd" to PLOT3D: the dimensions are the file's `I J 1`. The X and Y sweeps repeat the coordinate lines' x and y values in the file's own order. |
| Conversions.GrdToTecplot | src/main.cpp:80-84 | For ".grd" to Tecplot: the variables are `x` and `y` and the zone is `I = J, J = I`. The Tecplot line of each coordinate line's point repeats that line's two values. |
| Conversions.FlowFieldShape | src/main.cpp:283-286 | A flow field read has one layer per label, each of the file's J x I shape. |
| Conversions.FlowHeaderInTecplot | src/main.cpp:110-114 | The Tecplot header of a flow file names exactly the file's labels; no `V<i>` is added. |
| Conversions.FlowToTecplot | src/main.cpp:110-114 | For ".v2d" to Tecplot: the Tecplot line of point `[i][j]` lists, in layer order, the N values of the data line of that point. |

## Left out

- The interactive driver `main` (src/main.cpp:56-132) is not modelled: the menu prompts, `std::cin` reads and console messages. Only its two conversion chains are, as `Conversions`.
- `ERROR_Handle` is not modelled; it only prints a message and exits.
- File handling is not modelled: opening and closing files, the exit when a file cannot be opened, deriving output names with `substr`, and the ".plt" and ".X" suffixes. These are I/O.
- The console echo of the sizes, the count line and the count in the readers is not modelled.
- Floating-point parsing and formatting are abstracted as the `extract` and `show` parameters. The PLOT3D Z value `0.0` is the parameter `zero`.
- Fixed-width `int` arithmetic is not modelled: the overflow of `I*J` and of values too large for `int`.
- Text.ExtractInt: the contract says when extraction fails and what text remains, not the value read for every input. The value is stated, for every rendered size, by `Text.ExtractIntOfNat`.
- Blazek.ReadRaster: the C++ never checks for a truncated file. After the end of the file, `getline` keeps the last line when the file has no final newline, and gives an empty line otherwise. So the ".grd" reader repeats the last x and y read. The ".v2d" reader repeats the last line's values or leaves cells at 0. The model reports `Truncated` instead.
- Blazek.ParseRows: a data line lacking a value leaves the C++ with a zeroed or stale value. The model reports `MalformedData` with the line's index.
- Blazek.ReadGrd: a size line that ends after its first integer leaves the C++ with J uninitialised. A non-numeric second token gives J = 0, so the C++ goes on to read a grid one point high. A non-numeric first token gives I = 0 and leaves J uninitialised. The model reports `MalformedHeader`. A negative point count makes the C++ vector constructor throw, which the model reports as `NegativeSize`.
- Blazek.ReadFlowV2D: a count line with a single integer leaves the C++ using that integer as N, because the failed second read does not store anything. A non-numeric first or second token on the count line gives N = 0. A malformed size line (src/main.cpp:277) behaves like the mesh header: on `3 x`, J = 0 and the C++ returns N layers with no rows. The model reports `MalformedHeader` for all of these. With N = 0, the C++ allocates no layers and so does not reject negative `I J`. The model reports `NegativeSize` and also requires the `I * J` data lines to be present.
- Tecplot.TecplotWrite2D requires at least one layer with at least one row, because the C++ reads `data[0][0]` unconditionally. So an empty layer list cannot be written.
- Plot3d.Plot3dWrite2D requires at least one row, because the C++ reads `X[0]`.
- Blazek.FlowCount takes the second integer of the count line, as the code does when the line holds two integers. For a line with fewer, see `Blazek.ReadFlowV2D` above.
