/** Technosphere assembly (bw_exiobase/importer.py, fill_missing_production):
    inter-industry triples become sign-flipped records, production triples
    become diagonal records, and every column the production vector left
    out gets a synthetic unit diagonal record. */
module Technosphere {
  import opened Common

  /** The database ids of the flows (rows) and activities (columns), by
      position in their label lists. */
  type IdMap = map<nat, nat>

  /** No two positions share an id. */
  predicate Injective(m: IdMap)
  {
    forall a, b :: a in m && b in m && a != b ==> m[a] != m[b]
  }

  /** The row position a cell is mapped through: its own row, or, on the
      diagonal, its column. */
  function RowKey(t: Triple, diagonal: bool): nat
  {
    if diagonal then t.col else t.row
  }

  /** Every cell's row key and column have ids. */
  predicate AllMapped(rowMap: IdMap, colMap: IdMap, cells: seq<Triple>, diagonal: bool)
  {
    forall k :: 0 <= k < |cells| ==> RowKey(cells[k], diagonal) in rowMap && cells[k].col in colMap
  }

  /** The record of one cell; a missing id raises as the dict lookup does,
      the row first. */
  function Emit(rowMap: IdMap, colMap: IdMap, t: Triple, diagonal: bool, flip: bool): (r: Result<Record>)
    ensures r.Success? <==> RowKey(t, diagonal) in rowMap && t.col in colMap
    ensures RowKey(t, diagonal) !in rowMap ==> r == Failure(UnmappedRow(RowKey(t, diagonal)))
    ensures RowKey(t, diagonal) in rowMap && t.col !in colMap ==> r == Failure(UnmappedCol(t.col))
  {
    var i := RowKey(t, diagonal);
    if i !in rowMap then Failure(UnmappedRow(i))
    else if t.col !in colMap then Failure(UnmappedCol(t.col))
    else Success(Entry(rowMap[i], colMap[t.col], t.value, flip))
  }

  /** The records of a run of cells, in order; the first cell without ids
      stops the run. */
  function EmitAll(rowMap: IdMap, colMap: IdMap, cells: seq<Triple>, diagonal: bool, flip: bool): (r: Result<seq<Record>>)
    ensures r.Success? <==> AllMapped(rowMap, colMap, cells, diagonal)
    ensures r.Failure? ==>
      exists k :: 0 <= k < |cells| && Emit(rowMap, colMap, cells[k], diagonal, flip).Failure?
                  && r.error == Emit(rowMap, colMap, cells[k], diagonal, flip).error
                  && forall m :: 0 <= m < k ==> Emit(rowMap, colMap, cells[m], diagonal, flip).Success?
    ensures r.Success? ==> |r.value| == |cells|
    ensures r.Success? ==> forall k :: 0 <= k < |cells| ==>
      r.value[k] == Entry(rowMap[RowKey(cells[k], diagonal)], colMap[cells[k].col], cells[k].value, flip)
  {
    if |cells| == 0 then Success([])
    else
      var first :- Emit(rowMap, colMap, cells[0], diagonal, flip);
      var rest :- EmitAll(rowMap, colMap, cells[1..], diagonal, flip);
      assert forall k :: 1 <= k < |cells| ==> cells[k] == cells[1..][k - 1];
      Success([first] + rest)
  }

  /** The columns the production vector covers (production_seen). */
  function Seen(production: seq<Triple>): (s: set<nat>)
    ensures forall j :: j in s <==> exists k :: 0 <= k < |production| && production[k].col == j
  {
    set k | 0 <= k < |production| :: production[k].col
  }

  /** Unit diagonal cells for the indices in [lo, size) outside seen, in
      increasing order. */
  function FallbackCells(lo: nat, size: nat, seen: set<nat>): (r: seq<Triple>)
    decreases size - lo
    ensures forall k :: 0 <= k < |r| ==> lo <= r[k].col < size && r[k].col !in seen
    ensures forall k :: 0 <= k < |r| ==> r[k] == Triple(r[k].col, r[k].col, 1.0)
  {
    if lo >= size then []
    else if lo in seen then FallbackCells(lo + 1, size, seen)
    else [Triple(lo, lo, 1.0)] + FallbackCells(lo + 1, size, seen)
  }

  /** fill_missing_production: technosphere records first (flipped), then
      production records on the diagonal, then a unit diagonal record for
      every index in [0, size) the production stream did not cover. The
      stream fails at the first triple or uncovered index without ids. */
  function FillMissingProduction(technosphere: seq<Triple>, production: seq<Triple>,
                                 rowMap: IdMap, colMap: IdMap, size: nat): (r: Result<seq<Record>>)
    ensures r.Success? <==>
      && AllMapped(rowMap, colMap, technosphere, false)
      && AllMapped(rowMap, colMap, production, true)
      && AllMapped(rowMap, colMap, FallbackCells(0, size, Seen(production)), true)
    ensures r.Success? ==>
      |r.value| == |technosphere| + |production| + |FallbackCells(0, size, Seen(production))|
    ensures !AllMapped(rowMap, colMap, technosphere, false) ==>
      r == Failure(EmitAll(rowMap, colMap, technosphere, false, true).error)
    ensures AllMapped(rowMap, colMap, technosphere, false) && !AllMapped(rowMap, colMap, production, true) ==>
      r == Failure(EmitAll(rowMap, colMap, production, true, false).error)
    ensures AllMapped(rowMap, colMap, technosphere, false) && AllMapped(rowMap, colMap, production, true)
            && !AllMapped(rowMap, colMap, FallbackCells(0, size, Seen(production)), true) ==>
      r == Failure(EmitAll(rowMap, colMap, FallbackCells(0, size, Seen(production)), true, false).error)
  {
    var techRun := EmitAll(rowMap, colMap, technosphere, false, true);
    var prodRun := EmitAll(rowMap, colMap, production, true, false);
    var fallbackRun := EmitAll(rowMap, colMap, FallbackCells(0, size, Seen(production)), true, false);
    if techRun.Failure? then Failure(techRun.error)
    else if prodRun.Failure? then Failure(prodRun.error)
    else if fallbackRun.Failure? then Failure(fallbackRun.error)
    else Success(techRun.value + prodRun.value + fallbackRun.value)
  }

  /** The records of the three phases, when assembly succeeds. */
  function Phases(technosphere: seq<Triple>, production: seq<Triple>,
                  rowMap: IdMap, colMap: IdMap, size: nat): (seq<Record>, seq<Record>, seq<Record>)
    requires FillMissingProduction(technosphere, production, rowMap, colMap, size).Success?
  {
    (EmitAll(rowMap, colMap, technosphere, false, true).value,
     EmitAll(rowMap, colMap, production, true, false).value,
     EmitAll(rowMap, colMap, FallbackCells(0, size, Seen(production)), true, false).value)
  }

  /** Record k of the stream is technosphere triple k, flipped. */
  lemma TechnospherePhase(technosphere: seq<Triple>, production: seq<Triple>,
                          rowMap: IdMap, colMap: IdMap, size: nat)
    requires FillMissingProduction(technosphere, production, rowMap, colMap, size).Success?
    ensures var out := FillMissingProduction(technosphere, production, rowMap, colMap, size).value;
      forall k :: 0 <= k < |technosphere| ==>
        out[k] == Entry(rowMap[technosphere[k].row], colMap[technosphere[k].col], technosphere[k].value, true)
  {
    var (tech, prod, fallback) := Phases(technosphere, production, rowMap, colMap, size);
    var out := FillMissingProduction(technosphere, production, rowMap, colMap, size).value;
    assert out == tech + (prod + fallback);
  }

  /** After the technosphere records comes production triple k, on the
      diagonal of its column and not flipped. */
  lemma ProductionPhase(technosphere: seq<Triple>, production: seq<Triple>,
                        rowMap: IdMap, colMap: IdMap, size: nat)
    requires FillMissingProduction(technosphere, production, rowMap, colMap, size).Success?
    ensures var out := FillMissingProduction(technosphere, production, rowMap, colMap, size).value;
      forall k :: 0 <= k < |production| ==>
        out[|technosphere| + k] == Entry(rowMap[production[k].col], colMap[production[k].col], production[k].value, false)
  {
    var (tech, prod, fallback) := Phases(technosphere, production, rowMap, colMap, size);
    var out := FillMissingProduction(technosphere, production, rowMap, colMap, size).value;
    assert out == (tech + prod) + fallback;
    forall k | 0 <= k < |prod|
      ensures out[|technosphere| + k] == prod[k]
    {
      AppendIndex(tech, prod, k);
    }
  }

  /** After the production records comes fallback cell k: a unit record on
      the diagonal of its index, not flipped. */
  lemma FallbackPhase(technosphere: seq<Triple>, production: seq<Triple>,
                      rowMap: IdMap, colMap: IdMap, size: nat)
    requires FillMissingProduction(technosphere, production, rowMap, colMap, size).Success?
    ensures var out := FillMissingProduction(technosphere, production, rowMap, colMap, size).value;
      var fallback := FallbackCells(0, size, Seen(production));
      forall k :: 0 <= k < |fallback| ==>
        out[|technosphere| + |production| + k] == Entry(rowMap[fallback[k].col], colMap[fallback[k].col], 1.0, false)
  {
    var (tech, prod, fallback) := Phases(technosphere, production, rowMap, colMap, size);
    var out := FillMissingProduction(technosphere, production, rowMap, colMap, size).value;
    assert out == (tech + prod) + fallback;
    forall k | 0 <= k < |fallback|
      ensures out[|technosphere| + |production| + k] == fallback[k]
    {
      AppendIndex(tech + prod, fallback, k);
    }
  }

  /** Only technosphere records are flipped, and every record carries the
      sentinel sub-indices. */
  lemma FlipAndSentinels(technosphere: seq<Triple>, production: seq<Triple>,
                         rowMap: IdMap, colMap: IdMap, size: nat)
    requires FillMissingProduction(technosphere, production, rowMap, colMap, size).Success?
    ensures var out := FillMissingProduction(technosphere, production, rowMap, colMap, size).value;
      forall k :: 0 <= k < |out| ==> (out[k].flip <==> k < |technosphere|)
    ensures var out := FillMissingProduction(technosphere, production, rowMap, colMap, size).value;
      forall k :: 0 <= k < |out| ==> out[k].rowIndex == MAX_SIGNED_32BIT_INT && out[k].colIndex == MAX_SIGNED_32BIT_INT
  {
    var (tech, prod, fallback) := Phases(technosphere, production, rowMap, colMap, size);
    var out := FillMissingProduction(technosphere, production, rowMap, colMap, size).value;
    var diagonal := prod + fallback;
    assert out == tech + diagonal;
    forall k | |technosphere| <= k < |out|
      ensures !out[k].flip
    {
      var j := k - |tech|;
      AppendIndex(tech, diagonal, j);
      if j >= |prod| {
        AppendIndex(prod, fallback, j - |prod|);
      }
    }
  }

  /* ---------------------------------------------------------------------- */
  /* Diagonal coverage                                                      */
  /* ---------------------------------------------------------------------- */

  /** Every index below size is either covered by production or gets a
      fallback cell. */
  lemma {:induction false} FallbackCovers(lo: nat, size: nat, seen: set<nat>, i: nat)
    requires lo <= i < size && i !in seen
    ensures Triple(i, i, 1.0) in FallbackCells(lo, size, seen)
    decreases size - lo
  {
    if lo < i || lo in seen {
      FallbackCovers(lo + 1, size, seen, i);
    }
  }

  /** The stream holds a non-flipped record at (row, col). */
  predicate OnDiagonal(out: seq<Record>, row: nat, col: nat)
  {
    exists rec :: rec in out && !rec.flip && rec.row == row && rec.col == col
  }

  /** After assembly every index in [0, size) has ids and a non-flipped
      record on the diagonal: the matrix has no empty diagonal entry. */
  lemma DiagonalCovered(technosphere: seq<Triple>, production: seq<Triple>,
                        rowMap: IdMap, colMap: IdMap, size: nat)
    requires FillMissingProduction(technosphere, production, rowMap, colMap, size).Success?
    ensures forall i :: 0 <= i < size ==> i in rowMap && i in colMap
    ensures forall i :: 0 <= i < size ==>
      OnDiagonal(FillMissingProduction(technosphere, production, rowMap, colMap, size).value, rowMap[i], colMap[i])
  {
    var out := FillMissingProduction(technosphere, production, rowMap, colMap, size).value;
    var seen := Seen(production);
    var fallback := FallbackCells(0, size, seen);
    ProductionPhase(technosphere, production, rowMap, colMap, size);
    FallbackPhase(technosphere, production, rowMap, colMap, size);
    forall i | 0 <= i < size
      ensures i in rowMap && i in colMap
      ensures OnDiagonal(out, rowMap[i], colMap[i])
    {
      var p: nat;
      if i in seen {
        var k :| 0 <= k < |production| && production[k].col == i;
        p := |technosphere| + k;
      } else {
        FallbackCovers(0, size, seen, i);
        var k :| 0 <= k < |fallback| && fallback[k] == Triple(i, i, 1.0);
        p := |technosphere| + |production| + k;
      }
      assert out[p] in out;
    }
  }

  /** The amounts of the non-flipped records in column c, in stream order.
      A flipped technosphere record can sit on the diagonal too (a cell at
      row i, column i); it is not counted here. */
  function UnflippedAmounts(records: seq<Record>, c: nat): seq<real>
  {
    if |records| == 0 then []
    else
      var head := if !records[0].flip && records[0].col == c then [records[0].amount] else [];
      head + UnflippedAmounts(records[1..], c)
  }

  lemma {:induction false} UnflippedAmountsAppend(a: seq<Record>, b: seq<Record>, c: nat)
    ensures UnflippedAmounts(a + b, c) == UnflippedAmounts(a, c) + UnflippedAmounts(b, c)
  {
    if |a| > 0 {
      assert (a + b)[1..] == a[1..] + b;
      UnflippedAmountsAppend(a[1..], b, c);
    } else {
      assert a + b == b;
    }
  }

  /** The values of the cells in column j, in stream order. */
  function ColumnValues(cells: seq<Triple>, j: nat): seq<real>
  {
    if |cells| == 0 then []
    else
      var head := if cells[0].col == j then [cells[0].value] else [];
      head + ColumnValues(cells[1..], j)
  }

  /** By definition, flipped records add nothing to the unflipped amounts. */
  lemma {:induction false} FlippedUncounted(records: seq<Record>, c: nat)
    requires forall k :: 0 <= k < |records| ==> records[k].flip
    ensures UnflippedAmounts(records, c) == []
  {
    if |records| > 0 {
      FlippedUncounted(records[1..], c);
    }
  }

  /** Under an injective column map, the non-flipped records of a run of
      diagonal cells, in the column of index j, carry exactly the values of
      its cells in column j. */
  lemma {:induction false} UnflippedAmountsOfCells(rowMap: IdMap, colMap: IdMap, cells: seq<Triple>, j: nat)
    requires Injective(colMap) && j in colMap
    requires EmitAll(rowMap, colMap, cells, true, false).Success?
    ensures UnflippedAmounts(EmitAll(rowMap, colMap, cells, true, false).value, colMap[j]) == ColumnValues(cells, j)
  {
    if |cells| > 0 {
      var rs := EmitAll(rowMap, colMap, cells, true, false).value;
      assert EmitAll(rowMap, colMap, cells[1..], true, false).Success?;
      assert rs[1..] == EmitAll(rowMap, colMap, cells[1..], true, false).value;
      UnflippedAmountsOfCells(rowMap, colMap, cells[1..], j);
      assert rs[0].col == colMap[cells[0].col];
    }
  }

  /** The fallback cells hold one unit value for an uncovered index below
      size and nothing for any other index. */
  lemma {:induction false} FallbackColumnValues(lo: nat, size: nat, seen: set<nat>, i: nat)
    ensures ColumnValues(FallbackCells(lo, size, seen), i) == if lo <= i < size && i !in seen then [1.0] else []
    decreases size - lo
  {
    if lo < size {
      FallbackColumnValues(lo + 1, size, seen, i);
    }
  }

  /** The non-flipped records in the column of each index i below size
      carry exactly the production values of column i, in order, or, when
      production has none, the single amount 1. */
  lemma UnflippedAmountsPerColumn(technosphere: seq<Triple>, production: seq<Triple>,
                                 rowMap: IdMap, colMap: IdMap, size: nat, i: nat)
    requires FillMissingProduction(technosphere, production, rowMap, colMap, size).Success?
    requires Injective(colMap)
    requires i < size
    ensures i in colMap
    ensures UnflippedAmounts(FillMissingProduction(technosphere, production, rowMap, colMap, size).value, colMap[i])
         == if i in Seen(production) then ColumnValues(production, i) else [1.0]
  {
    DiagonalCovered(technosphere, production, rowMap, colMap, size);
    var tech := EmitAll(rowMap, colMap, technosphere, false, true).value;
    var prod := EmitAll(rowMap, colMap, production, true, false).value;
    var fallback := EmitAll(rowMap, colMap, FallbackCells(0, size, Seen(production)), true, false).value;
    var c := colMap[i];
    UnflippedAmountsAppend(tech + prod, fallback, c);
    UnflippedAmountsAppend(tech, prod, c);
    FlippedUncounted(tech, c);
    UnflippedAmountsOfCells(rowMap, colMap, production, i);
    UnflippedAmountsOfCells(rowMap, colMap, FallbackCells(0, size, Seen(production)), i);
    FallbackColumnValues(0, size, Seen(production), i);
    if i in Seen(production) {
      assert UnflippedAmounts(fallback, c) == [];
    } else {
      ColumnValuesAbsent(production, i);
    }
  }

  /** A technosphere cell on the diagonal lands there flipped, next to the
      production record of the same position. */
  lemma FlippedDiagonalExample()
    ensures FillMissingProduction([Triple(0, 0, 5.0)], [Triple(0, 0, 2.0)], map[0 := 10], map[0 := 20], 1)
         == Success([Entry(10, 20, 5.0, true), Entry(10, 20, 2.0, false)])
  {
    var tech := [Triple(0, 0, 5.0)];
    var prod := [Triple(0, 0, 2.0)];
    var seen := Seen(prod);
    assert prod[0].col == 0;
    assert 0 in seen;
    assert FallbackCells(0, 1, seen) == [];
    assert RowKey(tech[0], false) == 0 && RowKey(prod[0], true) == 0;
    assert AllMapped(map[0 := 10], map[0 := 20], tech, false);
    assert AllMapped(map[0 := 10], map[0 := 20], prod, true);
    assert EmitAll(map[0 := 10], map[0 := 20], tech, false, true).value == [Entry(10, 20, 5.0, true)];
    assert EmitAll(map[0 := 10], map[0 := 20], prod, true, false).value == [Entry(10, 20, 2.0, false)];
    assert EmitAll(map[0 := 10], map[0 := 20], FallbackCells(0, 1, seen), true, false) == Success([]);
    assert [Entry(10, 20, 5.0, true)] + [Entry(10, 20, 2.0, false)] + []
        == [Entry(10, 20, 5.0, true), Entry(10, 20, 2.0, false)];
  }

  /** A column no cell occupies has no values. */
  lemma {:induction false} ColumnValuesAbsent(cells: seq<Triple>, j: nat)
    requires j !in Seen(cells)
    ensures ColumnValues(cells, j) == []
  {
    if |cells| > 0 {
      assert cells[0].col != j;
      assert forall k :: 0 <= k < |cells[1..]| ==> cells[1..][k] == cells[k + 1];
      ColumnValuesAbsent(cells[1..], j);
    }
  }

  /** A column occupied by exactly one cell has exactly that cell's value. */
  lemma {:induction false} ColumnValuesSingle(cells: seq<Triple>, k: nat)
    requires k < |cells|
    requires forall m :: 0 <= m < |cells| && m != k ==> cells[m].col != cells[k].col
    ensures ColumnValues(cells, cells[k].col) == [cells[k].value]
  {
    var tail := cells[1..];
    assert forall m :: 0 <= m < |tail| ==> tail[m] == cells[m + 1];
    if k == 0 {
      ColumnValuesAbsent(tail, cells[0].col);
    } else {
      ColumnValuesSingle(tail, k - 1);
    }
  }

  /** With an injective column map and a production vector that covers each
      column at most once, every index below size has exactly one
      non-flipped record in its column: with its production value when
      covered, with 1 otherwise. Flipped technosphere records may share
      that position. */
  lemma UnflippedExactlyOnce(technosphere: seq<Triple>, production: seq<Triple>,
                            rowMap: IdMap, colMap: IdMap, size: nat, i: nat)
    requires FillMissingProduction(technosphere, production, rowMap, colMap, size).Success?
    requires Injective(colMap)
    requires forall a, b :: 0 <= a < b < |production| ==> production[a].col != production[b].col
    requires i < size
    ensures i in colMap
    ensures |UnflippedAmounts(FillMissingProduction(technosphere, production, rowMap, colMap, size).value, colMap[i])| == 1
    ensures i !in Seen(production) ==>
      UnflippedAmounts(FillMissingProduction(technosphere, production, rowMap, colMap, size).value, colMap[i]) == [1.0]
    ensures forall k :: 0 <= k < |production| && production[k].col == i ==>
      UnflippedAmounts(FillMissingProduction(technosphere, production, rowMap, colMap, size).value, colMap[i])
        == [production[k].value]
  {
    UnflippedAmountsPerColumn(technosphere, production, rowMap, colMap, size, i);
    if i in Seen(production) {
      var k :| 0 <= k < |production| && production[k].col == i;
      ColumnValuesSingle(production, k);
    }
  }
}
