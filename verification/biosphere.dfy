/** Biosphere assembly (bw_exiobase/importer.py, flow_label_as_dict,
    to_tuple and emissions_iterator): every row label of an extension
    worksheet is fanned out by a migration into target flows, and every
    numeric cell of that row becomes one record per target flow that has a
    category and known ids. */
module Biosphere {
  import opened Common
  import opened Tables
  import opened Layout

  /** A categories field as the migration leaves it: one category as plain
      text, or a sequence of categories. */
  datatype Categories = Text(text: string) | Items(items: seq<string>)

  /** A flow description: name, unit, optional categories, and the share of
      the source flow it receives. */
  datatype FlowDict = FlowDict(name: string, unit: string, categories: Option<Categories>, amount: real)

  /** The migration rules, applied to one source flow description; they come
      from an external rule set. */
  type Migration = FlowDict -> seq<FlowDict>

  /** Target flow ids, keyed by (name, categories tuple). */
  type FlowIds = map<(string, seq<string>), nat>

  /** Activity ids, keyed by column position. */
  type ColIds = map<nat, nat>

  /** to_tuple: a single text is one category, never split into its
      characters; a sequence keeps its elements. */
  function ToTuple(c: Categories): (r: seq<string>)
    ensures c.Text? ==> |r| == 1 && r[0] == c.text
    ensures c.Items? ==> |r| == |c.items| && forall k :: 0 <= k < |r| ==> r[k] == c.items[k]
  {
    match c
    case Text(s) => [s]
    case Items(items) => items
  }

  /** Two categories fields name the same flow key only when they are equal
      or are one category written once as text and once as a one-element
      sequence. */
  lemma ToTupleInjective(a: Categories, b: Categories)
    ensures ToTuple(a) == ToTuple(b) <==>
      || a == b
      || (a.Text? && b == Items([a.text]))
      || (b.Text? && a == Items([b.text]))
  {
    if ToTuple(a) == ToTuple(b) {
      if a.Items? && b.Items? {
        assert a.items == ToTuple(a) == ToTuple(b) == b.items;
      } else if a.Text? && b.Items? {
        assert b.items == [a.text];
      } else if a.Items? && b.Text? {
        assert a.items == [b.text];
      }
    }
  }

  /** An example of the one collision ToTupleInjective allows: a category
      given as text and the same category as a one-element sequence name
      the same flow key. */
  lemma TextIsSingleton(s: string)
    ensures ToTuple(Text(s)) == ToTuple(Items([s]))
  {
  }

  /** flow_label_as_dict: name and unit from the first two fields, the
      category from the third when there is one, and the whole amount. A
      label with fewer than two fields cannot be read (None here). */
  function FlowLabelAsDict(row: seq<string>): (r: Option<FlowDict>)
    ensures r.Some? <==> |row| >= 2
    ensures r.Some? ==> r.value.name == row[0] && r.value.unit == row[1] && r.value.amount == 1.0
    ensures r.Some? ==> (r.value.categories.Some? <==> |row| > 2)
    ensures r.Some? && |row| > 2 ==> r.value.categories == Some(Text(row[2]))
  {
    if |row| < 2 then None
    else Some(FlowDict(row[0], row[1], if |row| > 2 then Some(Text(row[2])) else None, 1.0))
  }

  /** The label fields a flow description was read from: name, unit and,
      when present, the category text. */
  function LabelFields(d: FlowDict): seq<string>
  {
    [d.name, d.unit] + match d.categories
      case Some(Text(c)) => [c]
      case _ => []
  }

  /** Reading a label keeps its first three fields and nothing else. */
  lemma FlowLabelRoundTrip(row: seq<string>)
    requires |row| >= 2
    ensures FlowLabelAsDict(row).Some? && LabelFields(FlowLabelAsDict(row).value) == Take(row, 3)
  {
    if |row| > 2 {
      assert Take(row, 3) == [row[0], row[1], row[2]];
    } else {
      assert Take(row, 3) == [row[0], row[1]];
    }
  }

  /** Writing a description as a label and reading it back gives it back,
      for the descriptions reading can produce: whole amount, and the
      category absent or a single text. */
  lemma LabelFieldsRoundTrip(d: FlowDict)
    requires d.amount == 1.0
    requires d.categories.None? || d.categories.value.Text?
    ensures FlowLabelAsDict(LabelFields(d)) == Some(d)
  {
  }

  /** The disaggregation table: for every row label, in order, the
      migrated target flows. The first unreadable label fails. */
  function Disaggregation(rows: seq<seq<string>>, migrate: Migration): (r: Result<seq<seq<FlowDict>>>)
    ensures r.Success? <==> forall i :: 0 <= i < |rows| ==> |rows[i]| >= 2
    ensures r.Success? ==> |r.value| == |rows|
    ensures r.Success? ==> forall i :: 0 <= i < |rows| ==> r.value[i] == migrate(FlowLabelAsDict(rows[i]).value)
    ensures r.Failure? ==>
      exists i :: 0 <= i < |rows| && |rows[i]| < 2 && r.error == ShortLabel(i)
                  && forall m :: 0 <= m < i ==> |rows[m]| >= 2
  {
    if |rows| == 0 then Success([])
    else
      var last := |rows| - 1;
      var front := Disaggregation(rows[..last], migrate);
      assert forall i :: 0 <= i < last ==> rows[..last][i] == rows[i];
      if front.Failure? then Failure(front.error)
      else if |rows[last]| < 2 then Failure(ShortLabel(last))
      else Success(front.value + [migrate(FlowLabelAsDict(rows[last]).value)])
  }

  /** A target flow yields a record: it has categories and both its flow key
      and the cell's column have ids. */
  predicate Survives(d: FlowDict, flowIds: FlowIds, colIds: ColIds, j: nat)
  {
    d.categories.Some? && (d.name, ToTuple(d.categories.value)) in flowIds && j in colIds
  }

  /** The record of one target flow for a cell of column j with the given
      value, if it survives; a missing category or a missed lookup skips it. */
  function EntryRecord(d: FlowDict, value: real, j: nat, flowIds: FlowIds, colIds: ColIds): (r: Option<Record>)
    ensures r.Some? <==> Survives(d, flowIds, colIds, j)
    ensures r.Some? ==> r.value.row == flowIds[(d.name, ToTuple(d.categories.value))] && r.value.col == colIds[j]
    ensures r.Some? ==> r.value.amount == value * d.amount && !r.value.flip
    ensures r.Some? ==> r.value.rowIndex == MAX_SIGNED_32BIT_INT && r.value.colIndex == MAX_SIGNED_32BIT_INT
  {
    if d.categories.None? then None
    else
      var key := (d.name, ToTuple(d.categories.value));
      if key !in flowIds || j !in colIds then None
      else Some(Entry(flowIds[key], colIds[j], value * d.amount, false))
  }

  /** The records of one cell: one per surviving target flow, in the
      migration's order. */
  function Entries(dcts: seq<FlowDict>, value: real, j: nat, flowIds: FlowIds, colIds: ColIds): (r: seq<Record>)
    ensures |r| <= |dcts|
    ensures forall rec :: rec in r <==>
      exists m :: 0 <= m < |dcts| && EntryRecord(dcts[m], value, j, flowIds, colIds) == Some(rec)
    ensures (forall m :: 0 <= m < |dcts| ==> Survives(dcts[m], flowIds, colIds, j)) ==> |r| == |dcts|
    ensures (forall m :: 0 <= m < |dcts| ==> !Survives(dcts[m], flowIds, colIds, j)) ==> r == []
  {
    if |dcts| == 0 then []
    else
      var tail := dcts[1..];
      var rest := Entries(tail, value, j, flowIds, colIds);
      assert forall m :: 1 <= m < |dcts| ==> dcts[m] == tail[m - 1];
      match EntryRecord(dcts[0], value, j, flowIds, colIds)
      case None => rest
      case Some(rec) => [rec] + rest
  }

  /** One target flow yields its record when it survives and nothing
      otherwise. */
  lemma EntriesOne(d: FlowDict, value: real, j: nat, flowIds: FlowIds, colIds: ColIds)
    ensures EntryRecord(d, value, j, flowIds, colIds).None? ==> Entries([d], value, j, flowIds, colIds) == []
    ensures EntryRecord(d, value, j, flowIds, colIds).Some? ==>
      Entries([d], value, j, flowIds, colIds) == [EntryRecord(d, value, j, flowIds, colIds).value]
  {
    assert [d][1..] == [];
    assert [d][0] == d;
  }

  /** The records follow the migration's order: the records of two runs of
      target flows are the first run's followed by the second's. */
  lemma {:induction false} EntriesAppend(a: seq<FlowDict>, b: seq<FlowDict>, value: real, j: nat,
                                         flowIds: FlowIds, colIds: ColIds)
    ensures Entries(a + b, value, j, flowIds, colIds)
         == Entries(a, value, j, flowIds, colIds) + Entries(b, value, j, flowIds, colIds)
  {
    if |a| == 0 {
      assert a + b == b;
    } else {
      TailOfAppend(a, b);
      EntriesAppend(a[1..], b, value, j, flowIds, colIds);
      var restA := Entries(a[1..], value, j, flowIds, colIds);
      var restB := Entries(b, value, j, flowIds, colIds);
      match EntryRecord(a[0], value, j, flowIds, colIds)
      case None =>
      case Some(rec) => AppendAssociative([rec], restA, restB);
    }
  }

  /** The records of a stream of cells whose rows index the disaggregation
      table; a row without a label fails the stream. */
  function Emissions(triples: seq<Triple>, table: seq<seq<FlowDict>>, flowIds: FlowIds, colIds: ColIds): (r: Result<seq<Record>>)
    ensures r.Success? <==> forall k :: 0 <= k < |triples| ==> triples[k].row < |table|
    ensures r.Failure? ==>
      exists k :: 0 <= k < |triples| && triples[k].row >= |table|
                  && r.error == UnknownSourceRow(triples[k].row)
                  && forall m :: 0 <= m < k ==> triples[m].row < |table|
  {
    if |triples| == 0 then Success([])
    else
      var t := triples[0];
      var tail := triples[1..];
      assert forall k :: 1 <= k < |triples| ==> triples[k] == tail[k - 1];
      if t.row >= |table| then Failure(UnknownSourceRow(t.row))
      else
        var rest := Emissions(tail, table, flowIds, colIds);
        if rest.Failure? then Failure(rest.error)
        else Success(Entries(table[t.row], t.value, t.col, flowIds, colIds) + rest.value)
  }

  /** The records of one cell, given that its row has a label. */
  function CellRecords(t: Triple, table: seq<seq<FlowDict>>, flowIds: FlowIds, colIds: ColIds): seq<Record>
    requires t.row < |table|
  {
    Entries(table[t.row], t.value, t.col, flowIds, colIds)
  }

  /** One step of the stream: the first cell's records, then the rest's. */
  lemma EmissionsStep(triples: seq<Triple>, table: seq<seq<FlowDict>>, flowIds: FlowIds, colIds: ColIds)
    requires |triples| > 0 && triples[0].row < |table|
    requires Emissions(triples[1..], table, flowIds, colIds).Success?
    ensures Emissions(triples, table, flowIds, colIds)
         == Success(CellRecords(triples[0], table, flowIds, colIds) + Emissions(triples[1..], table, flowIds, colIds).value)
  {
  }

  /** One cell in front of a stream: its records come before the stream's. */
  lemma EmissionsCons(a: seq<Triple>, b: seq<Triple>, table: seq<seq<FlowDict>>,
                      flowIds: FlowIds, colIds: ColIds, rest: seq<Record>)
    requires |a| > 0 && a[0].row < |table|
    requires Emissions(a[1..] + b, table, flowIds, colIds) == Success(rest)
    ensures Emissions(a + b, table, flowIds, colIds) == Success(CellRecords(a[0], table, flowIds, colIds) + rest)
  {
    TailOfAppend(a, b);
    EmissionsStep(a + b, table, flowIds, colIds);
  }

  /** The records of the cells one after another are the records of the
      whole stream: a skipped target flow never stops the stream. */
  lemma {:induction false} EmissionsAppend(a: seq<Triple>, b: seq<Triple>, table: seq<seq<FlowDict>>,
                                           flowIds: FlowIds, colIds: ColIds)
    requires Emissions(a, table, flowIds, colIds).Success? && Emissions(b, table, flowIds, colIds).Success?
    ensures Emissions(a + b, table, flowIds, colIds)
         == Success(Emissions(a, table, flowIds, colIds).value + Emissions(b, table, flowIds, colIds).value)
  {
    if |a| == 0 {
      assert a + b == b;
      assert Emissions(a, table, flowIds, colIds).value == [];
      assert [] + Emissions(b, table, flowIds, colIds).value == Emissions(b, table, flowIds, colIds).value;
    } else {
      assert a[0].row < |table|;
      var ra := Emissions(a[1..], table, flowIds, colIds).value;
      var rb := Emissions(b, table, flowIds, colIds).value;
      EmissionsAppend(a[1..], b, table, flowIds, colIds);
      EmissionsCons(a, b, table, flowIds, colIds, ra + rb);
      EmissionsStep(a, table, flowIds, colIds);
      AppendAssociative(CellRecords(a[0], table, flowIds, colIds), ra, rb);
    }
  }

  /** A record is emitted exactly when some cell of the stream has a target
      flow that yields it. */
  lemma {:induction false} EmissionsMembership(triples: seq<Triple>, table: seq<seq<FlowDict>>,
                                               flowIds: FlowIds, colIds: ColIds, rec: Record)
    requires Emissions(triples, table, flowIds, colIds).Success?
    ensures rec in Emissions(triples, table, flowIds, colIds).value <==>
      exists k :: 0 <= k < |triples| && triples[k].row < |table| && rec in CellRecords(triples[k], table, flowIds, colIds)
  {
    if |triples| > 0 {
      var tail := triples[1..];
      assert forall k :: 1 <= k < |triples| ==> triples[k] == tail[k - 1];
      assert triples[0].row < |table|;
      EmissionsMembership(tail, table, flowIds, colIds, rec);
      var out := Emissions(triples, table, flowIds, colIds).value;
      assert out == CellRecords(triples[0], table, flowIds, colIds) + Emissions(tail, table, flowIds, colIds).value;
      if exists k :: 0 <= k < |triples| && triples[k].row < |table| && rec in CellRecords(triples[k], table, flowIds, colIds) {
        var k :| 0 <= k < |triples| && triples[k].row < |table| && rec in CellRecords(triples[k], table, flowIds, colIds);
        if k > 0 {
          assert tail[k - 1] == triples[k];
        }
      }
    }
  }

  /** Every emitted record is unflipped and carries the sentinel sub-indices. */
  lemma {:induction false} EmissionsShape(triples: seq<Triple>, table: seq<seq<FlowDict>>,
                                          flowIds: FlowIds, colIds: ColIds)
    requires Emissions(triples, table, flowIds, colIds).Success?
    ensures forall rec :: rec in Emissions(triples, table, flowIds, colIds).value ==> Plain(rec)
  {
    forall rec | rec in Emissions(triples, table, flowIds, colIds).value
      ensures Plain(rec)
    {
      EmissionsMembership(triples, table, flowIds, colIds, rec);
      var k :| 0 <= k < |triples| && triples[k].row < |table| && rec in CellRecords(triples[k], table, flowIds, colIds);
      var t := triples[k];
      var m :| 0 <= m < |table[t.row]| && EntryRecord(table[t.row][m], t.value, t.col, flowIds, colIds) == Some(rec);
    }
  }

  /** emissions_iterator: the labels of the named worksheet are migrated
      first (an unknown worksheet or an unreadable label fails), then the
      worksheet's cells are read from the biosphere role and fanned out. */
  function EmissionsIterator(registry: Registry, files: Files, version: string, worksheet: string,
                             labels: map<string, Labels>, migrate: Migration,
                             flowIds: FlowIds, colIds: ColIds, parse: Parser): (r: Result<seq<Record>>)
    ensures worksheet !in labels ==> r == Failure(UnknownWorksheet(worksheet))
    ensures worksheet in labels && Disaggregation(labels[worksheet].rowLabels, migrate).Failure? ==>
      r == Failure(Disaggregation(labels[worksheet].rowLabels, migrate).error)
    ensures r.Success? ==>
      var table := Disaggregation(labels[worksheet].rowLabels, migrate).value;
      var triples := ExiobaseData(registry, files, version, "biosphere", Some(worksheet), parse);
      && triples.Success?
      && Emissions(triples.value, table, flowIds, colIds) == r
    ensures r.Success? ==> forall rec :: rec in r.value ==> Plain(rec)
    ensures worksheet in labels && Disaggregation(labels[worksheet].rowLabels, migrate).Success? ==>
      var table := Disaggregation(labels[worksheet].rowLabels, migrate).value;
      var triples := ExiobaseData(registry, files, version, "biosphere", Some(worksheet), parse);
      && (triples.Failure? ==> r == Failure(triples.error))
      && (triples.Success? ==> r == Emissions(triples.value, table, flowIds, colIds))
  {
    if worksheet !in labels then Failure(UnknownWorksheet(worksheet))
    else
      var table :- Disaggregation(labels[worksheet].rowLabels, migrate);
      var triples :- ExiobaseData(registry, files, version, "biosphere", Some(worksheet), parse);
      var r := Emissions(triples, table, flowIds, colIds);
      if r.Success? then EmissionsShape(triples, table, flowIds, colIds); r else r
  }

  /** A worked case: a cell of value 10 whose label migrates to a flow with
      category X at share 0.6 and to a flow without category at share 0.4
      yields exactly one record, of amount 6. */
  lemma SplitExample()
    ensures
      var table := [[FlowDict("A", "kg", Some(Text("X")), 0.6), FlowDict("B", "kg", None, 0.4)]];
      Emissions([Triple(0, 0, 10.0)], table, map[("A", ["X"]) := 7], map[0 := 3])
        == Success([Entry(7, 3, 6.0, false)])
  {
    var table := [[FlowDict("A", "kg", Some(Text("X")), 0.6), FlowDict("B", "kg", None, 0.4)]];
    var flowIds: FlowIds := map[("A", ["X"]) := 7];
    var colIds: ColIds := map[0 := 3];
    assert EntryRecord(table[0][0], 10.0, 0, flowIds, colIds) == Some(Entry(7, 3, 6.0, false));
    assert EntryRecord(table[0][1], 10.0, 0, flowIds, colIds) == None;
    assert Entries(table[0][1..], 10.0, 0, flowIds, colIds) == [];
    assert Entries(table[0], 10.0, 0, flowIds, colIds) == [Entry(7, 3, 6.0, false)];
  }
}
