/** Offset detection (bw_exiobase/utils.py, get_offsets): guesses how many
    header rows and label columns a grid has from its blank cells, looking
    only at a 25 x 25 window in the top-left corner. */
module Offsets {
  import opened Common

  /** A worksheet after conversion: rows of text cells, of any lengths. */
  type Grid = seq<seq<string>>

  /** Size of the heuristic window, in rows and in columns. */
  const WINDOW: nat := 25

  /** The importer's notion of an empty cell; converted cells are always text. */
  predicate Blank(cell: string)
  {
    cell == ""
  }

  /** One past the last blank cell among the first n cells of a row, or 0
      when none of them is blank. */
  function LastBlankEnd(row: seq<string>, n: nat): (r: nat)
    requires n <= |row|
    ensures r <= n
    ensures r > 0 ==> Blank(row[r - 1])
    ensures forall j :: r <= j < n ==> !Blank(row[j])
  {
    if n == 0 then 0
    else if Blank(row[n - 1]) then n
    else LastBlankEnd(row, n - 1)
  }

  /** One past the last of the first n rows whose first cell is blank, or 0. */
  function LastBlankRowEnd(grid: Grid, n: nat): (r: nat)
    requires n <= |grid|
    requires forall i :: 0 <= i < n ==> |grid[i]| > 0
    ensures r <= n
    ensures r > 0 ==> Blank(grid[r - 1][0])
    ensures forall i :: r <= i < n ==> !Blank(grid[i][0])
  {
    if n == 0 then 0
    else if Blank(grid[n - 1][0]) then n
    else LastBlankRowEnd(grid, n - 1)
  }

  /** The first of the first n rows that has no cell at all, if any. */
  function FirstEmptyRow(grid: Grid, n: nat): (r: Option<nat>)
    requires n <= |grid|
    ensures r.None? <==> forall i :: 0 <= i < n ==> |grid[i]| > 0
    ensures r.Some? ==> r.value < n && |grid[r.value]| == 0
    ensures r.Some? ==> forall i :: 0 <= i < r.value ==> |grid[i]| > 0
  {
    if n == 0 then None
    else match FirstEmptyRow(grid, n - 1)
      case Some(i) => Some(i)
      case None => if |grid[n - 1]| == 0 then Some(n - 1) else None
  }

  /** The guessed (row offset, column offset). An empty grid or an empty
      first row makes the top-left lookup fail; with a blank top-left cell,
      an empty row inside the window makes the first-cell lookup fail. */
  function GetOffsets(grid: Grid): (r: Result<(nat, nat)>)
    ensures r == Failure(EmptyGrid) <==> |grid| == 0 || |grid[0]| == 0
    ensures r.Failure? && r.error != EmptyGrid ==> r.error.ShortRow?
    ensures r.Success? && !Blank(grid[0][0]) ==> r.value == (0, 0)
    ensures r.Failure? && r.error.ShortRow? ==>
      var i := r.error.row;
      && Blank(grid[0][0])
      && i < Min(WINDOW, |grid|) && |grid[i]| == 0
      && forall k :: 0 <= k < i ==> |grid[k]| > 0
    ensures r.Success? && Blank(grid[0][0]) ==>
      var (ro, co) := r.value;
      && (forall i :: 0 <= i < Min(WINDOW, |grid|) ==> |grid[i]| > 0)
      && 1 <= ro <= Min(WINDOW, |grid|) && 1 <= co <= Min(WINDOW, |grid[0]|)
      && Blank(grid[ro - 1][0]) && Blank(grid[0][co - 1])
      && (forall i :: ro <= i < Min(WINDOW, |grid|) ==> !Blank(grid[i][0]))
      && (forall j :: co <= j < Min(WINDOW, |grid[0]|) ==> !Blank(grid[0][j]))
    ensures r.Failure? <==>
      || |grid| == 0 || |grid[0]| == 0
      || (Blank(grid[0][0]) && exists i :: 0 <= i < Min(WINDOW, |grid|) && |grid[i]| == 0)
  {
    if |grid| == 0 || |grid[0]| == 0 then Failure(EmptyGrid)
    else if !Blank(grid[0][0]) then Success((0, 0))
    else
      var rows := Min(WINDOW, |grid|);
      var co := LastBlankEnd(grid[0], Min(WINDOW, |grid[0]|));
      match FirstEmptyRow(grid, rows)
      case Some(i) => Failure(ShortRow(i))
      case None => Success((LastBlankRowEnd(grid, rows), co))
  }

  /** A grid whose top-left r x c corner is blank along its first row and
      first column, with no further blanks there inside the window, is
      detected as having exactly r header rows and c label columns. */
  lemma HeaderBlockDetected(grid: Grid, ro: nat, co: nat)
    requires 1 <= ro <= Min(WINDOW, |grid|)
    requires 1 <= co <= Min(WINDOW, |grid[0]|)
    requires forall i :: 0 <= i < Min(WINDOW, |grid|) ==> |grid[i]| > 0
    requires forall i :: 0 <= i < ro ==> Blank(grid[i][0])
    requires forall i :: ro <= i < Min(WINDOW, |grid|) ==> !Blank(grid[i][0])
    requires forall j :: 0 <= j < co ==> Blank(grid[0][j])
    requires forall j :: co <= j < Min(WINDOW, |grid[0]|) ==> !Blank(grid[0][j])
    ensures GetOffsets(grid) == Success((ro, co))
  {
    assert Blank(grid[0][0]);
    var (gro, gco) := GetOffsets(grid).value;
    assert Blank(grid[ro - 1][0]) && Blank(grid[gro - 1][0]);
    assert Blank(grid[0][co - 1]) && Blank(grid[0][gco - 1]);
  }
}
