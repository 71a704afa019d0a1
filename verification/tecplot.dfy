/**
 * `tecplotWrite2D`: writes N layers of one m x n grid as a point-packed
 * Tecplot ASCII file, one line per grid point.
 */
module Tecplot {
  import opened Wrappers
  import opened Text
  import opened Raster

  /** `V<i>`: the name of the i-th variable (1-based) when no label names it. */
  function DefaultName(i: nat): string {
    "V" + NatToString(i)
  }

  /**
   * The variable names for N layers: the labels, then `V<|labels|+1>` ..
   * `V<N>` for the layers left unnamed. Labels beyond the N-th are kept.
   */
  function VariableNames(labels: seq<string>, N: nat): (vs: seq<string>)
    ensures |vs| == if N > |labels| then N else |labels|
    ensures vs[..|labels|] == labels
    ensures forall p :: |labels| <= p < N ==> vs[p] == DefaultName(p + 1)
    decreases N - |labels|
  {
    if |labels| + 1 > N then labels
    else
      var vs := VariableNames(labels + [DefaultName(|labels| + 1)], N);
      assert vs[..|labels| + 1][..|labels|] == vs[..|labels|];
      vs
  }

  /** The names, each quoted, separated by `", "`. */
  function QuotedList(vs: seq<string>): string
  {
    if |vs| == 0 then ""
    else if |vs| == 1 then "\"" + vs[0] + "\""
    else "\"" + vs[0] + "\", " + QuotedList(vs[1..])
  }

  /** The header line naming the variables. */
  function VariablesLine(vs: seq<string>): string {
    "VARIABLES = " + QuotedList(vs)
  }

  /** Position of the first `"` in `s` at or after `i`, or `|s|`. */
  function FindQuote(s: string, i: nat): (e: nat)
    requires i <= |s|
    ensures i <= e <= |s|
    ensures forall k :: i <= k < e ==> s[k] != '"'
    ensures e < |s| ==> s[e] == '"'
    decreases |s| - i
  {
    if i == |s| || s[i] == '"' then i else FindQuote(s, i + 1)
  }

  /** Reads a `QuotedList` back into its names; `None` if `s` is not of that form. */
  function ParseQuotedList(s: string): Option<seq<string>>
    decreases |s|
  {
    if |s| == 0 then Some([])
    else if s[0] != '"' then None
    else
      var close := FindQuote(s, 1);
      if close == |s| then None
      else
        var name := s[1..close];
        var rest := s[close + 1..];
        if rest == [] then Some([name])
        else if |rest| >= 2 && rest[..2] == ", " then
          match ParseQuotedList(rest[2..])
          case Some(names) => if names == [] then None else Some([name] + names)
          case None => None
        else None
  }

  /** No name contains a double quote. */
  ghost predicate QuoteFree(vs: seq<string>) {
    forall p :: 0 <= p < |vs| ==> '"' !in vs[p]
  }

  /** The closing quote of a quoted, quote-free name is the one right after it. */
  lemma ClosingQuote(v: string, tail: string)
    requires '"' !in v
    ensures FindQuote("\"" + v + "\"" + tail, 1) == |v| + 1
  {
    var s := "\"" + v + "\"" + tail;
    assert forall k :: 1 <= k < |v| + 1 ==> s[k] == v[k - 1];
    assert s[|v| + 1] == '"';
  }

  /** Parsing one quoted, quote-free name followed by `tail`. */
  lemma ParseFirstName(v: string, tail: string)
    requires '"' !in v
    ensures ParseQuotedList("\"" + v + "\"" + tail) ==
      if tail == [] then Some([v])
      else if |tail| >= 2 && tail[..2] == ", " then
        match ParseQuotedList(tail[2..])
        case Some(names) => if names == [] then None else Some([v] + names)
        case None => None
      else None
  {
    var s := "\"" + v + "\"" + tail;
    ClosingQuote(v, tail);
    assert s[1..|v| + 1] == v;
    assert s[|v| + 2..] == tail;
  }

  /** A quoted name followed by the rest of the list. */
  lemma QuotedListCons(vs: seq<string>)
    requires 1 < |vs|
    ensures QuotedList(vs) == "\"" + vs[0] + "\"" + (", " + QuotedList(vs[1..]))
  {
  }

  /** The induction step of `QuotedListRoundTrip`. */
  lemma QuotedListStep(vs: seq<string>)
    requires 1 < |vs| && '"' !in vs[0]
    requires ParseQuotedList(QuotedList(vs[1..])) == Some(vs[1..])
    ensures ParseQuotedList(QuotedList(vs)) == Some(vs)
  {
    var tail := ", " + QuotedList(vs[1..]);
    QuotedListCons(vs);
    ParseFirstName(vs[0], tail);
    assert tail[..2] == ", " && tail[2..] == QuotedList(vs[1..]);
    assert vs == [vs[0]] + vs[1..];
  }

  /** The VARIABLES line lists exactly the given names, in order, provided no
      name contains a double quote. */
  lemma {:induction false} QuotedListRoundTrip(vs: seq<string>)
    requires QuoteFree(vs)
    ensures ParseQuotedList(QuotedList(vs)) == Some(vs)
    decreases |vs|
  {
    if |vs| == 1 {
      ParseFirstName(vs[0], "");
      assert QuotedList(vs) == "\"" + vs[0] + "\"" + "";
      assert vs == [vs[0]];
    } else if 1 < |vs| {
      QuotedListRoundTrip(vs[1..]);
      QuotedListStep(vs);
    }
  }

  /** Position of the point `[i][j]` among the data lines: column j occupies
      lines `j*m .. j*m + m - 1`, from row m-1 down to row 0. */
  function TecplotRow(m: nat, n: nat, i: nat, j: nat): (p: nat)
    requires i < m && j < n
    ensures p < m * n
  {
    MulStep(j, m);
    MulMonotone(j + 1, n, m);
    j * m + (m - 1 - i)
  }

  /** Every data position is the Tecplot row of exactly one point: position p
      belongs to column `p / m`, row `m - 1 - p % m`. */
  lemma TecplotRowOnto(m: nat, n: nat, p: nat)
    requires p < m * n
    ensures 0 < m && m - 1 - p % m < m && p / m < n
    ensures TecplotRow(m, n, m - 1 - p % m, p / m) == p
  {
    QuotientBelow(p, m, n);
  }

  /** Distinct points have distinct Tecplot rows. */
  lemma TecplotRowInjective(m: nat, n: nat, i1: nat, j1: nat, i2: nat, j2: nat)
    requires i1 < m && j1 < n && i2 < m && j2 < n
    requires TecplotRow(m, n, i1, j1) == TecplotRow(m, n, i2, j2)
    ensures i1 == i2 && j1 == j2
  {
    var p := TecplotRow(m, n, i1, j1);
    DivModUnique(p, m, j1, m - 1 - i1);
    DivModUnique(p, m, j2, m - 1 - i2);
  }

  /** The points of column j visited by the inner loop: rows `top - 1` down to 0. */
  function ColumnPoints<T>(data: seq<Grid<T>>, m: nat, n: nat, top: nat, j: nat): (ps: seq<seq<T>>)
    requires CoversAll(data, m, n) && top <= m && j < n
    ensures |ps| == top
    ensures forall q :: 0 <= q < top ==> ps[q] == Point(data, top - 1 - q, j)
  {
    if top == 0 then []
    else [Point(data, top - 1, j)] + ColumnPoints(data, m, n, top - 1, j)
  }

  /** Appending column `cols - 1`, top row last, extends the points of the first `cols - 1` columns. */
  lemma PointsStep<T>(data: seq<Grid<T>>, m: nat, n: nat, cols: nat, front: seq<seq<T>>, ps: seq<seq<T>>)
    requires CoversAll(data, m, n) && 1 <= cols <= n
    requires |front| == (cols - 1) * m
    requires forall i, j :: 0 <= i < m && 0 <= j < cols - 1 ==>
      front[TecplotRow(m, cols - 1, i, j)] == Point(data, i, j)
    requires ps == front + ColumnPoints(data, m, n, m, cols - 1)
    ensures |ps| == cols * m
    ensures forall i, j :: 0 <= i < m && 0 <= j < cols ==> ps[TecplotRow(m, cols, i, j)] == Point(data, i, j)
  {
    MulStep(cols - 1, m);
    forall i, j | 0 <= i < m && 0 <= j < cols
      ensures ps[TecplotRow(m, cols, i, j)] == Point(data, i, j)
    {
      if j < cols - 1 {
        assert TecplotRow(m, cols, i, j) == TecplotRow(m, cols - 1, i, j);
      } else {
        assert TecplotRow(m, cols, i, j) == |front| + (m - 1 - i);
      }
    }
  }

  /** The points visited by the outer loop over columns 0 .. `cols - 1`, a whole column at a time. */
  function Points<T>(data: seq<Grid<T>>, m: nat, n: nat, cols: nat): (ps: seq<seq<T>>)
    requires CoversAll(data, m, n) && cols <= n
    ensures |ps| == cols * m
    ensures forall i, j :: 0 <= i < m && 0 <= j < cols ==> ps[TecplotRow(m, cols, i, j)] == Point(data, i, j)
  {
    if cols == 0 then []
    else
      var front := Points(data, m, n, cols - 1);
      var ps := front + ColumnPoints(data, m, n, m, cols - 1);
      PointsStep(data, m, n, cols, front, ps);
      ps
  }

  /** One data line: every value followed by a blank. */
  function RowText<T>(show: T -> string, vals: seq<T>): string
  {
    if |vals| == 0 then "" else show(vals[0]) + " " + RowText(show, vals[1..])
  }

  /** The four header lines: title, variable names, zone size, packing. */
  function TecplotHeader(names: seq<string>, m: nat, n: nat): seq<string> {
    [
      "TITLE = \"contour\"",
      VariablesLine(names),
      "zone I = " + NatToString(m) + ", J = " + NatToString(n),
      "DATAPACKING = point"
    ]
  }

  /** One text line per point. */
  function DataLines<T>(show: T -> string, ps: seq<seq<T>>): (lines: seq<string>)
    ensures |lines| == |ps|
    ensures forall p :: 0 <= p < |ps| ==> lines[p] == RowText(show, ps[p])
  {
    seq(|ps|, p requires 0 <= p < |ps| => RowText(show, ps[p]))
  }

  /** Rendering the points after `skip` header lines puts the text of point `[i][j]` on its Tecplot row. */
  lemma DataLinesPlaced<T>(data: seq<Grid<T>>, show: T -> string, m: nat, n: nat, ps: seq<seq<T>>,
                           skip: nat, lines: seq<string>)
    requires CoversAll(data, m, n)
    requires |ps| == m * n
    requires forall i, j :: 0 <= i < m && 0 <= j < n ==> ps[TecplotRow(m, n, i, j)] == Point(data, i, j)
    requires skip <= |lines| && lines[skip..] == DataLines(show, ps)
    ensures forall i, j :: 0 <= i < m && 0 <= j < n ==>
      lines[skip + TecplotRow(m, n, i, j)] == RowText(show, Point(data, i, j))
  {
    forall i, j | 0 <= i < m && 0 <= j < n
      ensures lines[skip + TecplotRow(m, n, i, j)] == RowText(show, Point(data, i, j))
    {
      var p := TecplotRow(m, n, i, j);
      assert lines[skip + p] == lines[skip..][p];
    }
  }

  /**
   * The lines of the Tecplot file for layers `data` (m = `|data[0]|`,
   * n = `|data[0][0]|`): the header, then one line per point with j
   * ascending outside and i descending inside.
   */
  function TecplotWrite2D<T>(data: seq<Grid<T>>, labels: seq<string>, show: T -> string): (lines: seq<string>)
    requires 1 <= |data| && 1 <= |data[0]|
    requires CoversAll(data, |data[0]|, |data[0][0]|)
    ensures |lines| == 4 + |data[0]| * |data[0][0]|
    ensures lines[..4] == TecplotHeader(VariableNames(labels, |data|), |data[0]|, |data[0][0]|)
    ensures forall i, j :: 0 <= i < |data[0]| && 0 <= j < |data[0][0]| ==>
      lines[4 + TecplotRow(|data[0]|, |data[0][0]|, i, j)] == RowText(show, Point(data, i, j))
  {
    var m, n := |data[0]|, |data[0][0]|;
    var ps := Points(data, m, n, n);
    var header := TecplotHeader(VariableNames(labels, |data|), m, n);
    var lines := header + DataLines(show, ps);
    assert lines[..4] == header;
    DataLinesPlaced(data, show, m, n, ps, 4, lines);
    lines
  }
}
