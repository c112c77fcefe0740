/** Table extraction (bw_exiobase/utils.py, labels_for_compressed_data and
    get_data_iterator): splitting a grid into row labels and transposed
    column labels, and streaming its non-zero numeric cells as
    offset-relative triples in row-major order. */
module Tables {
  import opened Common
  import opened Offsets

  /** Row labels (the leading cells of every data row) and column labels
      (the header rows, transposed and padded with None). */
  datatype Labels = Labels(rowLabels: seq<seq<string>>, colLabels: seq<seq<Option<string>>>)

  /** Python's float(), supplied by the caller: None when the text is not a number. */
  type Parser = string -> Option<real>

  /* ---------------------------------------------------------------------- */
  /* Column labels: itertools.zip_longest over the header rows              */
  /* ---------------------------------------------------------------------- */

  /** Length of the longest row, 0 when there is none. */
  function MaxLen<T>(rows: seq<seq<T>>): (m: nat)
    ensures forall k :: 0 <= k < |rows| ==> |rows[k]| <= m
    ensures |rows| > 0 ==> exists k :: 0 <= k < |rows| && |rows[k]| == m
    ensures |rows| == 0 ==> m == 0
  {
    if |rows| == 0 then 0
    else
      var rest := MaxLen(rows[1..]);
      assert forall k :: 1 <= k < |rows| ==> rows[k] == rows[1..][k - 1];
      if |rows[0]| >= rest then |rows[0]| else rest
  }

  /** Cell j of a row, or the None fill value past its end. */
  function Padded(row: seq<string>, j: int): Option<string>
  {
    if 0 <= j < |row| then Some(row[j]) else None
  }

  /** zip_longest(*rows): one tuple per position up to the longest row, the
      k-th component taken from the k-th row and None where it is too short. */
  function ZipLongest(rows: seq<seq<string>>): (r: seq<seq<Option<string>>>)
    ensures |r| == MaxLen(rows)
    ensures forall j :: 0 <= j < |r| ==> |r[j]| == |rows|
    ensures forall j, k :: 0 <= j < |r| && 0 <= k < |rows| ==>
      (j < |rows[k]| ==> r[j][k] == Some(rows[k][j])) && (j >= |rows[k]| ==> r[j][k].None?)
  {
    seq(MaxLen(rows), j => seq(|rows|, k requires 0 <= k < |rows| => Padded(rows[k], j)))
  }

  /** The k-th components of a sequence of tuples. */
  function Column(tuples: seq<seq<Option<string>>>, k: nat): seq<Option<string>>
    requires forall j :: 0 <= j < |tuples| ==> k < |tuples[j]|
  {
    seq(|tuples|, j requires 0 <= j < |tuples| => tuples[j][k])
  }

  /** The values before the first None. */
  function Unpad(cells: seq<Option<string>>): seq<string>
  {
    if |cells| == 0 || cells[0].None? then [] else [cells[0].value] + Unpad(cells[1..])
  }

  /** A row followed only by None fill is recovered by dropping the fill. */
  lemma {:induction false} UnpadPadded(row: seq<string>, cells: seq<Option<string>>)
    requires |row| <= |cells|
    requires forall j :: 0 <= j < |row| ==> cells[j] == Some(row[j])
    requires forall j :: |row| <= j < |cells| ==> cells[j].None?
    ensures Unpad(cells) == row
  {
    if |row| > 0 {
      assert cells[0] == Some(row[0]);
      UnpadPadded(row[1..], cells[1..]);
    }
  }

  /** Transposing with zip_longest loses nothing: each header row is
      recovered from its column of the transposed tuples. */
  lemma ZipLongestRoundTrip(rows: seq<seq<string>>, k: nat)
    requires k < |rows|
    ensures Unpad(Column(ZipLongest(rows), k)) == rows[k]
  {
    var tuples := ZipLongest(rows);
    UnpadPadded(rows[k], Column(tuples, k));
  }

  /* ---------------------------------------------------------------------- */
  /* Labels                                                                 */
  /* ---------------------------------------------------------------------- */

  /** The labels of a grid whose data starts at (ro, co): column labels from
      the first ro rows cut at co, row labels from the first co cells of
      every later row. */
  function Split(grid: Grid, ro: nat, co: nat): (r: Labels)
    ensures |r.rowLabels| == |grid| - Min(ro, |grid|)
    ensures forall k :: 0 <= k < |r.rowLabels| ==> r.rowLabels[k] == Take(grid[ro + k], co)
    ensures forall j :: 0 <= j < |r.colLabels| ==> |r.colLabels[j]| == Min(ro, |grid|)
    ensures forall j, k :: 0 <= j < |r.colLabels| && 0 <= k < Min(ro, |grid|) ==>
      r.colLabels[j][k] == Padded(grid[k], j + co)
    ensures forall k :: 0 <= k < Min(ro, |grid|) ==> |Drop(grid[k], co)| <= |r.colLabels|
    ensures Min(ro, |grid|) == 0 ==> |r.colLabels| == 0
    ensures Min(ro, |grid|) > 0 ==>
      exists k :: 0 <= k < Min(ro, |grid|) && |Drop(grid[k], co)| == |r.colLabels|
  {
    HeaderWidth(grid, ro, co);
    HeaderCells(grid, ro, co);
    Labels(RowLabels(grid, ro, co), ZipLongest(HeaderRows(grid, ro, co)))
  }

  /** The first co cells of every row after the first ro. */
  function RowLabels(grid: Grid, ro: nat, co: nat): (r: seq<seq<string>>)
    ensures |r| == |grid| - Min(ro, |grid|)
    ensures forall k :: 0 <= k < |r| ==> r[k] == Take(grid[ro + k], co)
  {
    var body := grid[Min(ro, |grid|)..];
    seq(|body|, k requires 0 <= k < |body| => Take(body[k], co))
  }

  /** Component k of transposed tuple j is header row k's cell at column
      j + co, or None past its end. */
  lemma HeaderCells(grid: Grid, ro: nat, co: nat)
    ensures forall j :: 0 <= j < |ZipLongest(HeaderRows(grid, ro, co))| ==>
      |ZipLongest(HeaderRows(grid, ro, co))[j]| == Min(ro, |grid|)
    ensures forall j, k :: 0 <= j < |ZipLongest(HeaderRows(grid, ro, co))| && 0 <= k < Min(ro, |grid|) ==>
      ZipLongest(HeaderRows(grid, ro, co))[j][k] == Padded(grid[k], j + co)
  {
    var header := HeaderRows(grid, ro, co);
    var cols := ZipLongest(header);
    forall j, k | 0 <= j < |cols| && 0 <= k < Min(ro, |grid|)
      ensures cols[j][k] == Padded(grid[k], j + co)
    {
      assert header[k] == Drop(grid[k], co);
      if j < |header[k]| {
        assert header[k][j] == grid[k][j + co];
      }
    }
  }

  /** The first ro rows of a grid, each cut at column co. */
  function HeaderRows(grid: Grid, ro: nat, co: nat): (h: seq<seq<string>>)
    ensures |h| == Min(ro, |grid|)
    ensures forall k :: 0 <= k < |h| ==> h[k] == Drop(grid[k], co)
  {
    seq(Min(ro, |grid|), k requires 0 <= k < Min(ro, |grid|) => Drop(grid[k], co))
  }

  /** The transposed header has as many tuples as the longest header row
      has cells past column co, and none without header rows. */
  lemma HeaderWidth(grid: Grid, ro: nat, co: nat)
    ensures forall k :: 0 <= k < Min(ro, |grid|) ==> |Drop(grid[k], co)| <= |ZipLongest(HeaderRows(grid, ro, co))|
    ensures Min(ro, |grid|) == 0 ==> |ZipLongest(HeaderRows(grid, ro, co))| == 0
    ensures Min(ro, |grid|) > 0 ==>
      exists k :: 0 <= k < Min(ro, |grid|) && |Drop(grid[k], co)| == |ZipLongest(HeaderRows(grid, ro, co))|
  {
    var header := HeaderRows(grid, ro, co);
    var width := |ZipLongest(header)|;
    assert width == MaxLen(header);
    forall k | 0 <= k < Min(ro, |grid|) ensures |Drop(grid[k], co)| <= width {
      assert header[k] == Drop(grid[k], co);
    }
    if |header| > 0 {
      var k :| 0 <= k < |header| && |header[k]| == width;
      assert header[k] == Drop(grid[k], co);
    }
  }

  /** labels_for_compressed_data: the offsets are always guessed first (so a
      grid the guess cannot read fails even when both offsets are given),
      then each offset supplied by the caller replaces its guess. */
  function LabelsForGrid(grid: Grid, rowOffset: Option<nat>, colOffset: Option<nat>): (r: Result<Labels>)
    ensures r.Failure? <==> GetOffsets(grid).Failure?
    ensures r.Failure? ==> r.error == GetOffsets(grid).error
    ensures r.Success? && rowOffset.Some? && colOffset.Some? ==>
      r.value == Split(grid, rowOffset.value, colOffset.value)
    ensures r.Success? && rowOffset.None? && colOffset.None? ==>
      r.value == Split(grid, GetOffsets(grid).value.0, GetOffsets(grid).value.1)
    ensures r.Success? && rowOffset.Some? && colOffset.None? ==>
      r.value == Split(grid, rowOffset.value, GetOffsets(grid).value.1)
    ensures r.Success? && rowOffset.None? && colOffset.Some? ==>
      r.value == Split(grid, GetOffsets(grid).value.0, colOffset.value)
  {
    var guess :- GetOffsets(grid);
    Success(Split(grid, rowOffset.GetOr(guess.0), colOffset.GetOr(guess.1)))
  }

  /** With known offsets the label counts follow the grid's shape: one row
      label per data row, one column label component per header row. */
  lemma LabelCounts(grid: Grid, ro: nat, co: nat)
    requires ro <= |grid|
    requires GetOffsets(grid).Success?
    ensures LabelsForGrid(grid, Some(ro), Some(co)).Success?
    ensures |LabelsForGrid(grid, Some(ro), Some(co)).value.rowLabels| == |grid| - ro
    ensures forall c :: c in LabelsForGrid(grid, Some(ro), Some(co)).value.colLabels ==> |c| == ro
    ensures forall k :: 0 <= k < ro ==>
      |Drop(grid[k], co)| <= |LabelsForGrid(grid, Some(ro), Some(co)).value.colLabels|
    ensures ro == 0 ==> |LabelsForGrid(grid, Some(ro), Some(co)).value.colLabels| == 0
    ensures ro > 0 ==>
      exists k :: 0 <= k < ro && |Drop(grid[k], co)| == |LabelsForGrid(grid, Some(ro), Some(co)).value.colLabels|
  {
  }

  /* ---------------------------------------------------------------------- */
  /* Data cells: get_data_iterator                                          */
  /* ---------------------------------------------------------------------- */

  /** Cell (i, j) lies in the data quadrant and has text. */
  predicate InData(grid: Grid, ro: nat, co: nat, i: nat, j: nat)
  {
    ro <= i < |grid| && co <= j < |grid[i]| && !Blank(grid[i][j])
  }

  /** Cell (i, j) has text that float() rejects. */
  predicate Corrupt(grid: Grid, ro: nat, co: nat, parse: Parser, i: nat, j: nat)
  {
    InData(grid, ro, co, i, j) && parse(grid[i][j]).None?
  }

  /** Cell (i, j) holds a non-zero number and so produces a triple. */
  predicate Yields(grid: Grid, ro: nat, co: nat, parse: Parser, i: nat, j: nat)
  {
    InData(grid, ro, co, i, j) && parse(grid[i][j]).Some? && parse(grid[i][j]).value != 0.0
  }

  /** Strict row-major order: earlier row, or same row and earlier column. */
  predicate Before(a: Triple, b: Triple)
  {
    a.row < b.row || (a.row == b.row && a.col < b.col)
  }

  predicate RowMajor(s: seq<Triple>)
  {
    forall a, b :: 0 <= a < b < |s| ==> Before(s[a], s[b])
  }

  /** Row-major position (i, j) comes strictly before (i2, j2). */
  predicate EarlierCell(i: nat, j: nat, i2: nat, j2: nat)
  {
    i < i2 || (i == i2 && j < j2)
  }

  /** The triples of row i from column j on. */
  function RowTriples(grid: Grid, ro: nat, co: nat, parse: Parser, i: nat, j: nat): (r: Result<seq<Triple>>)
    requires i < |grid| && j <= |grid[i]|
    decreases |grid[i]| - j
    ensures r.Failure? <==> exists jj: nat :: j <= jj < |grid[i]| && Corrupt(grid, ro, co, parse, i, jj)
    ensures r.Failure? ==>
      && r.error.BadNumber? && r.error.row == i && j <= r.error.col
      && Corrupt(grid, ro, co, parse, i, r.error.col)
      && forall jj: nat :: j <= jj < r.error.col ==> !Corrupt(grid, ro, co, parse, i, jj)
    ensures r.Success? ==> forall t :: t in r.value ==>
      && t.row + ro == i && j <= t.col + co
      && Yields(grid, ro, co, parse, i, t.col + co)
      && t.value == parse(grid[i][t.col + co]).value
    ensures r.Success? ==> forall jj: nat :: j <= jj && Yields(grid, ro, co, parse, i, jj) ==>
      Triple(i - ro, jj - co, parse(grid[i][jj]).value) in r.value
    ensures r.Success? ==> RowMajor(r.value)
  {
    if j == |grid[i]| then Success([])
    else if InData(grid, ro, co, i, j) then
      match parse(grid[i][j])
      case None =>
        assert Corrupt(grid, ro, co, parse, i, j);
        Failure(BadNumber(i, j))
      case Some(v) =>
        var rest :- RowTriples(grid, ro, co, parse, i, j + 1);
        if v != 0.0 then Success([Triple(i - ro, j - co, v)] + rest) else Success(rest)
    else
      RowTriples(grid, ro, co, parse, i, j + 1)
  }

  /** The triples of rows i onwards, row after row. */
  function GridTriples(grid: Grid, ro: nat, co: nat, parse: Parser, i: nat): (r: Result<seq<Triple>>)
    requires i <= |grid|
    decreases |grid| - i
    ensures r.Failure? <==> exists ii: nat, jj: nat :: i <= ii && Corrupt(grid, ro, co, parse, ii, jj)
    ensures r.Failure? ==>
      && r.error.BadNumber? && i <= r.error.row
      && Corrupt(grid, ro, co, parse, r.error.row, r.error.col)
      && forall ii: nat, jj: nat :: i <= ii && EarlierCell(ii, jj, r.error.row, r.error.col) ==>
           !Corrupt(grid, ro, co, parse, ii, jj)
    ensures r.Success? ==> forall t :: t in r.value ==>
      && i <= t.row + ro
      && Yields(grid, ro, co, parse, t.row + ro, t.col + co)
      && t.value == parse(grid[t.row + ro][t.col + co]).value
    ensures r.Success? ==> forall ii: nat, jj: nat :: i <= ii && Yields(grid, ro, co, parse, ii, jj) ==>
      Triple(ii - ro, jj - co, parse(grid[ii][jj]).value) in r.value
    ensures r.Success? ==> RowMajor(r.value)
  {
    if i == |grid| then Success([])
    else
      var here := RowTriples(grid, ro, co, parse, i, 0);
      if here.Failure? then
        Failure(here.error)
      else
        var rest :- GridTriples(grid, ro, co, parse, i + 1);
        Success(here.value + rest)
  }

  /** get_data_iterator: every cell at or past both offsets with text whose
      number is not zero, as (row - ro, col - co, number), in row-major
      order. A cell with text float() rejects aborts the stream; the error
      names the first such cell. */
  function DataTriples(grid: Grid, ro: nat, co: nat, parse: Parser): (r: Result<seq<Triple>>)
    ensures r.Failure? <==> exists i: nat, j: nat :: Corrupt(grid, ro, co, parse, i, j)
    ensures r.Failure? ==>
      && r.error.BadNumber? && Corrupt(grid, ro, co, parse, r.error.row, r.error.col)
      && forall i: nat, j: nat :: EarlierCell(i, j, r.error.row, r.error.col) ==> !Corrupt(grid, ro, co, parse, i, j)
    ensures r.Success? ==> forall t :: t in r.value ==>
      && Yields(grid, ro, co, parse, t.row + ro, t.col + co)
      && t.value == parse(grid[t.row + ro][t.col + co]).value
    ensures r.Success? ==> forall i: nat, j: nat :: Yields(grid, ro, co, parse, i, j) ==>
      Triple(i - ro, j - co, parse(grid[i][j]).value) in r.value
    ensures r.Success? ==> RowMajor(r.value)
  {
    GridTriples(grid, ro, co, parse, 0)
  }

  /** Every triple's row has a row label: the data stream and the labels of
      one grid, cut at the same offsets, agree on the number of data rows. */
  lemma TripleRowsHaveLabels(grid: Grid, ro: nat, co: nat, parse: Parser)
    requires DataTriples(grid, ro, co, parse).Success?
    ensures forall t :: t in DataTriples(grid, ro, co, parse).value ==> t.row < |Split(grid, ro, co).rowLabels|
  {
  }
}
