/** The layout registry (bw_exiobase/version_config.py) and the functions
    that walk it (bw_exiobase/utils.py, iterate_worksheets,
    get_labels_for_exiobase and get_exiobase_data_iterator). */
module Layout {
  import opened Common
  import opened Offsets
  import opened Tables

  /** One worksheet of one workbook, and where its numbers start. */
  datatype Sheet = Sheet(filename: string, worksheet: string, rowOffset: nat, colOffset: nat)

  /** The worksheets that play one semantic role, in declaration order. */
  datatype RoleSheets = RoleSheets(role: string, sheets: seq<Sheet>)

  /** The roles of one dataset version, in declaration order (Python dicts
      keep insertion order, and iteration over all roles follows it). */
  type VersionLayout = seq<RoleSheets>

  type Registry = map<string, VersionLayout>

  /** The converted worksheets, addressed by (workbook name, worksheet name). */
  type Files = map<(string, string), Grid>

  const HYBRID: string := "3.3.17 hybrid"
  const HIOT_BOOK: string := "Exiobase_MR_HIOT_2011_v3_3_17_by_prod_tech"
  const EXTENSIONS_BOOK: string := "MR_HIOT_2011_v3_3_17_extensions"

  /** The shipped registry: one version with a technosphere, a production
      and three biosphere worksheets. */
  const VERSIONS: Registry := map[HYBRID := HYBRID_LAYOUT]

  const HYBRID_LAYOUT: VersionLayout := [
    RoleSheets("technosphere", [Sheet(HIOT_BOOK, "HIOT", 4, 5)]),
    RoleSheets("production", [Sheet(HIOT_BOOK, "Principal_production_vector", 8, 1)]),
    RoleSheets("biosphere", BIOSPHERE_SHEETS)
  ]

  const BIOSPHERE_SHEETS: seq<Sheet> := [
    Sheet(EXTENSIONS_BOOK, "resource_act", 4, 2),
    Sheet(EXTENSIONS_BOOK, "Land_act", 4, 2),
    Sheet(EXTENSIONS_BOOK, "Emiss_act", 4, 3)
  ]

  /** No role is declared twice, as with the keys of a Python dict. */
  predicate DistinctRoles(layout: VersionLayout)
  {
    forall a, b :: 0 <= a < b < |layout| ==> layout[a].role != layout[b].role
  }

  /** All worksheets of a version, role after role. */
  function AllSheets(layout: VersionLayout): (r: seq<Sheet>)
    ensures forall a, s :: 0 <= a < |layout| && s in layout[a].sheets ==> s in r
    ensures forall s :: s in r ==> exists a :: 0 <= a < |layout| && s in layout[a].sheets
  {
    if |layout| == 0 then []
    else
      var rest := AllSheets(layout[1..]);
      assert forall a :: 1 <= a < |layout| ==> layout[a] == layout[1..][a - 1];
      layout[0].sheets + rest
  }

  /** The walk keeps the declaration order of the roles: walking two runs of
      roles is walking each and concatenating. */
  lemma {:induction false} AllSheetsAppend(a: VersionLayout, b: VersionLayout)
    ensures AllSheets(a + b) == AllSheets(a) + AllSheets(b)
  {
    if |a| == 0 {
      assert a + b == b;
    } else {
      TailOfAppend(a, b);
      AllSheetsAppend(a[1..], b);
      AppendAssociative(a[0].sheets, AllSheets(a[1..]), AllSheets(b));
    }
  }

  /** A single role contributes its own worksheets, in their declared order. */
  lemma AllSheetsOne(role: RoleSheets)
    ensures AllSheets([role]) == role.sheets
  {
    assert [role][1..] == [];
    assert AllSheets([role][1..]) == [];
    assert role.sheets + [] == role.sheets;
  }

  /** VERSIONS[version][role]: the worksheets declared for a role. */
  function SheetsFor(layout: VersionLayout, role: string): (r: Result<seq<Sheet>>)
    ensures r.Failure? <==> forall a :: 0 <= a < |layout| ==> layout[a].role != role
    ensures r.Failure? ==> r.error == UnknownRole(role)
    ensures r.Success? ==> exists a :: 0 <= a < |layout| && layout[a].role == role && r.value == layout[a].sheets
    ensures r.Success? && DistinctRoles(layout) ==>
      forall a :: 0 <= a < |layout| && layout[a].role == role ==> r.value == layout[a].sheets
  {
    if |layout| == 0 then Failure(UnknownRole(role))
    else if layout[0].role == role then Success(layout[0].sheets)
    else
      var rest := SheetsFor(layout[1..], role);
      assert forall a :: 1 <= a < |layout| ==> layout[a] == layout[1..][a - 1];
      rest
  }

  /** iterate_worksheets: the worksheets of one role, or of all roles when
      none is named. */
  function IterateWorksheets(registry: Registry, version: string, role: Option<string>): (r: Result<seq<Sheet>>)
    ensures version !in registry ==> r == Failure(UnknownVersion(version))
    ensures version in registry && role.None? ==> r == Success(AllSheets(registry[version]))
    ensures version in registry && role.Some? ==> r == SheetsFor(registry[version], role.value)
  {
    if version !in registry then Failure(UnknownVersion(version))
    else match role
      case None => Success(AllSheets(registry[version]))
      case Some(name) => SheetsFor(registry[version], name)
  }

  /** Every worksheet of a named role is also visited when no role is named. */
  lemma RoleSheetsAmongAll(registry: Registry, version: string, role: string)
    requires IterateWorksheets(registry, version, Some(role)).Success?
    ensures IterateWorksheets(registry, version, None).Success?
    ensures forall s :: s in IterateWorksheets(registry, version, Some(role)).value ==>
      s in IterateWorksheets(registry, version, None).value
  {
  }

  /** The worksheet's converted grid, or the error of opening a missing file. */
  function SheetGrid(files: Files, sheet: Sheet): (r: Result<Grid>)
    ensures r.Success? <==> (sheet.filename, sheet.worksheet) in files
    ensures r.Success? ==> r.value == files[(sheet.filename, sheet.worksheet)]
    ensures r.Failure? ==> r.error == MissingSheet(sheet.filename, sheet.worksheet)
  {
    if (sheet.filename, sheet.worksheet) in files then Success(files[(sheet.filename, sheet.worksheet)])
    else Failure(MissingSheet(sheet.filename, sheet.worksheet))
  }

  /** get_data_iterator over one worksheet with its declared offsets. */
  function SheetData(files: Files, sheet: Sheet, parse: Parser): Result<seq<Triple>>
  {
    var grid :- SheetGrid(files, sheet);
    DataTriples(grid, sheet.rowOffset, sheet.colOffset, parse)
  }

  /** itertools.chain over the worksheets' streams: each stream is read to
      its end before the next one starts, and the first failure stops all. */
  function ChainData(files: Files, sheets: seq<Sheet>, parse: Parser): (r: Result<seq<Triple>>)
    ensures r.Success? <==> forall k :: 0 <= k < |sheets| ==> SheetData(files, sheets[k], parse).Success?
    ensures r.Success? ==> forall t :: t in r.value <==>
      exists k :: 0 <= k < |sheets| && t in SheetData(files, sheets[k], parse).value
    ensures r.Failure? ==> exists k :: 0 <= k < |sheets| && r == SheetData(files, sheets[k], parse)
  {
    if |sheets| == 0 then Success([])
    else
      var first :- SheetData(files, sheets[0], parse);
      var rest := ChainData(files, sheets[1..], parse);
      assert forall k :: 1 <= k < |sheets| ==> sheets[k] == sheets[1..][k - 1];
      if rest.Failure? then rest
      else
        ChainDataStep(files, sheets, parse, first, rest.value);
        Success(first + rest.value)
  }

  /** One step of the chain: a triple is in the first worksheet's stream
      followed by the rest's exactly when some worksheet streams it. */
  lemma ChainDataStep(files: Files, sheets: seq<Sheet>, parse: Parser, first: seq<Triple>, rest: seq<Triple>)
    requires |sheets| > 0 && SheetData(files, sheets[0], parse) == Success(first)
    requires forall k :: 0 <= k < |sheets| ==> SheetData(files, sheets[k], parse).Success?
    requires forall t :: t in rest <==> exists k :: 0 <= k < |sheets| - 1 && t in SheetData(files, sheets[1..][k], parse).value
    ensures forall t :: t in first + rest <==> exists k :: 0 <= k < |sheets| && t in SheetData(files, sheets[k], parse).value
  {
    forall t | t in first + rest
      ensures exists k :: 0 <= k < |sheets| && t in SheetData(files, sheets[k], parse).value
    {
      if t !in first {
        var k :| 0 <= k < |sheets| - 1 && t in SheetData(files, sheets[1..][k], parse).value;
        assert sheets[1..][k] == sheets[k + 1];
      }
    }
    forall t | exists k :: 0 <= k < |sheets| && t in SheetData(files, sheets[k], parse).value
      ensures t in first + rest
    {
      var k :| 0 <= k < |sheets| && t in SheetData(files, sheets[k], parse).value;
      if k > 0 {
        assert sheets[1..][k - 1] == sheets[k];
      }
    }
  }

  /** Chaining two runs of worksheets streams the first run, then the second. */
  lemma {:induction false} ChainDataAppend(files: Files, a: seq<Sheet>, b: seq<Sheet>, parse: Parser)
    requires ChainData(files, a, parse).Success? && ChainData(files, b, parse).Success?
    ensures ChainData(files, a + b, parse) == Success(ChainData(files, a, parse).value + ChainData(files, b, parse).value)
  {
    if |a| > 0 {
      var tail := a[1..];
      TailOfAppend(a, b);
      assert forall k :: 0 <= k < |tail| ==> tail[k] == a[k + 1];
      assert ChainData(files, tail, parse).Success?;
      ChainDataAppend(files, tail, b, parse);
      var first := SheetData(files, a[0], parse).value;
      var restA := ChainData(files, tail, parse).value;
      var restB := ChainData(files, b, parse).value;
      assert ChainData(files, a, parse) == Success(first + restA);
      assert ChainData(files, a + b, parse) == Success(first + (restA + restB));
      AppendAssociative(first, restA, restB);
    } else {
      assert a + b == b;
      assert ChainData(files, a, parse) == Success([]);
      assert [] + ChainData(files, b, parse).value == ChainData(files, b, parse).value;
    }
  }

  /** The worksheets kept by the optional worksheet filter. */
  function Selected(sheets: seq<Sheet>, worksheet: Option<string>): (r: seq<Sheet>)
    ensures worksheet.None? ==> r == sheets
    ensures forall s :: s in r <==> s in sheets && (worksheet.None? || s.worksheet == worksheet.value)
  {
    if |sheets| == 0 then []
    else
      var rest := Selected(sheets[1..], worksheet);
      if worksheet.None? || sheets[0].worksheet == worksheet.value then [sheets[0]] + rest else rest
  }

  /** The filter keeps the worksheets in declaration order: filtering two
      runs is filtering each and concatenating. */
  lemma {:induction false} SelectedAppend(a: seq<Sheet>, b: seq<Sheet>, worksheet: Option<string>)
    ensures Selected(a + b, worksheet) == Selected(a, worksheet) + Selected(b, worksheet)
  {
    if |a| == 0 {
      assert a + b == b;
    } else {
      TailOfAppend(a, b);
      SelectedAppend(a[1..], b, worksheet);
      var restA := Selected(a[1..], worksheet);
      var restB := Selected(b, worksheet);
      if worksheet.None? || a[0].worksheet == worksheet.value {
        AppendAssociative([a[0]], restA, restB);
      }
    }
  }

  /** The chain read by worksheet: it succeeds exactly when every
      worksheet's stream does, and then holds every triple of every one. */
  lemma ChainDataMembers(files: Files, sheets: seq<Sheet>, parse: Parser)
    ensures ChainData(files, sheets, parse).Success? <==>
      forall s :: s in sheets ==> SheetData(files, s, parse).Success?
    ensures ChainData(files, sheets, parse).Success? ==>
      forall s, t :: s in sheets && t in SheetData(files, s, parse).value ==> t in ChainData(files, sheets, parse).value
  {
    var r := ChainData(files, sheets, parse);
    if r.Success? {
      forall s | s in sheets ensures SheetData(files, s, parse).Success? {
        var k :| 0 <= k < |sheets| && sheets[k] == s;
      }
      forall s, t | s in sheets && t in SheetData(files, s, parse).value ensures t in r.value {
        var k :| 0 <= k < |sheets| && sheets[k] == s;
      }
    } else {
      var k :| 0 <= k < |sheets| && r == SheetData(files, sheets[k], parse);
      assert sheets[k] in sheets;
    }
  }

  /** get_exiobase_data_iterator: the streams of the role's worksheets,
      optionally only the one with the given name, chained in declaration
      order. An unknown version or role fails before anything is read. */
  function ExiobaseData(registry: Registry, files: Files, version: string, role: string,
                        worksheet: Option<string>, parse: Parser): (r: Result<seq<Triple>>)
    ensures IterateWorksheets(registry, version, Some(role)).Failure? ==>
      r.Failure? && r.error == IterateWorksheets(registry, version, Some(role)).error
    ensures IterateWorksheets(registry, version, Some(role)).Success? ==>
      var sheets := IterateWorksheets(registry, version, Some(role)).value;
      r.Success? ==> forall t :: t in r.value ==>
        exists s :: s in sheets && (worksheet.None? || s.worksheet == worksheet.value)
          && SheetData(files, s, parse).Success? && t in SheetData(files, s, parse).value
    ensures IterateWorksheets(registry, version, Some(role)).Success? ==>
      var sheets := IterateWorksheets(registry, version, Some(role)).value;
      r.Success? <==> forall s :: s in sheets && (worksheet.None? || s.worksheet == worksheet.value) ==>
        SheetData(files, s, parse).Success?
    ensures IterateWorksheets(registry, version, Some(role)).Success? ==>
      var sheets := IterateWorksheets(registry, version, Some(role)).value;
      r.Success? ==> forall s, t ::
        (s in sheets && (worksheet.None? || s.worksheet == worksheet.value) && t in SheetData(files, s, parse).value)
        ==> t in r.value
  {
    var sheets :- IterateWorksheets(registry, version, Some(role));
    ChainDataMembers(files, Selected(sheets, worksheet), parse);
    ChainData(files, Selected(sheets, worksheet), parse)
  }

  /** The role's worksheets are read in declaration order: when they split
      into an earlier and a later run, the stream is the earlier run's
      selected worksheets followed by the later run's. */
  lemma ExiobaseDataInOrder(registry: Registry, files: Files, version: string, role: string,
                            worksheet: Option<string>, parse: Parser, a: seq<Sheet>, b: seq<Sheet>)
    requires IterateWorksheets(registry, version, Some(role)) == Success(a + b)
    requires ChainData(files, Selected(a, worksheet), parse).Success?
    requires ChainData(files, Selected(b, worksheet), parse).Success?
    ensures ExiobaseData(registry, files, version, role, worksheet, parse)
         == Success(ChainData(files, Selected(a, worksheet), parse).value
                    + ChainData(files, Selected(b, worksheet), parse).value)
  {
    SelectedAppend(a, b, worksheet);
    ChainDataAppend(files, Selected(a, worksheet), Selected(b, worksheet), parse);
  }

  /** When exactly one worksheet of the role carries the requested name, the
      filtered stream is that worksheet's stream alone. */
  lemma {:induction false} SelectOnlyMatch(sheets: seq<Sheet>, k: nat, name: string)
    requires k < |sheets| && sheets[k].worksheet == name
    requires forall m :: 0 <= m < |sheets| && m != k ==> sheets[m].worksheet != name
    ensures Selected(sheets, Some(name)) == [sheets[k]]
  {
    if k == 0 {
      NoneSelected(sheets[1..], name);
    } else {
      assert sheets[0].worksheet != name;
      forall m | 0 <= m < |sheets[1..]| && m != k - 1
        ensures sheets[1..][m].worksheet != name
      {
        assert sheets[1..][m] == sheets[m + 1];
      }
      SelectOnlyMatch(sheets[1..], k - 1, name);
    }
  }

  /** No worksheet carries the name: the filter keeps nothing. */
  lemma {:induction false} NoneSelected(sheets: seq<Sheet>, name: string)
    requires forall m :: 0 <= m < |sheets| ==> sheets[m].worksheet != name
    ensures Selected(sheets, Some(name)) == []
  {
    if |sheets| > 0 {
      assert sheets[0].worksheet != name;
      forall m | 0 <= m < |sheets[1..]|
        ensures sheets[1..][m].worksheet != name
      {
        assert sheets[1..][m] == sheets[m + 1];
      }
      NoneSelected(sheets[1..], name);
    }
  }

  /** In the shipped registry the emissions stream of the biosphere role is
      exactly the Emiss_act worksheet read from row 4 and column 3. */
  lemma EmissionsStream(files: Files, parse: Parser)
    ensures ExiobaseData(VERSIONS, files, HYBRID, "biosphere", Some("Emiss_act"), parse)
         == SheetData(files, Sheet(EXTENSIONS_BOOK, "Emiss_act", 4, 3), parse)
  {
    assert SheetsFor(HYBRID_LAYOUT[2..], "biosphere") == Success(BIOSPHERE_SHEETS);
    assert SheetsFor(HYBRID_LAYOUT[1..], "biosphere") == Success(BIOSPHERE_SHEETS) by {
      assert HYBRID_LAYOUT[1..][1..] == HYBRID_LAYOUT[2..];
    }
    assert SheetsFor(HYBRID_LAYOUT, "biosphere") == Success(BIOSPHERE_SHEETS);
    SelectOnlyMatch(BIOSPHERE_SHEETS, 2, "Emiss_act");
    ChainSingle(files, BIOSPHERE_SHEETS[2], parse);
  }

  /** A chain of one stream is that stream. */
  lemma ChainSingle(files: Files, sheet: Sheet, parse: Parser)
    ensures ChainData(files, [sheet], parse) == SheetData(files, sheet, parse)
  {
    assert [sheet][1..] == [];
    assert ChainData(files, [], parse) == Success([]);
    var d := SheetData(files, sheet, parse);
    if d.Success? {
      assert d.value + [] == d.value;
      assert ChainData(files, [sheet], parse) == Success(d.value + []);
    }
  }

  /** In the shipped registry, walking all roles visits the five worksheets
      in declaration order: technosphere, production, then the three
      biosphere worksheets. */
  lemma ShippedWorksheetOrder()
    ensures IterateWorksheets(VERSIONS, HYBRID, None) == Success([
      Sheet(HIOT_BOOK, "HIOT", 4, 5),
      Sheet(HIOT_BOOK, "Principal_production_vector", 8, 1),
      Sheet(EXTENSIONS_BOOK, "resource_act", 4, 2),
      Sheet(EXTENSIONS_BOOK, "Land_act", 4, 2),
      Sheet(EXTENSIONS_BOOK, "Emiss_act", 4, 3)])
  {
    var l2 := HYBRID_LAYOUT[2..];
    var l1 := HYBRID_LAYOUT[1..];
    assert |l2| == 1 && l2[0].sheets == BIOSPHERE_SHEETS && l2[1..] == [];
    assert AllSheets(l2) == BIOSPHERE_SHEETS + AllSheets([]);
    assert AllSheets(l2) == BIOSPHERE_SHEETS;
    assert |l1| == 2 && l1[1..] == l2;
    assert AllSheets(l1) == l1[0].sheets + BIOSPHERE_SHEETS;
    assert HYBRID_LAYOUT[1..] == l1;
    assert AllSheets(HYBRID_LAYOUT) == HYBRID_LAYOUT[0].sheets + (l1[0].sheets + BIOSPHERE_SHEETS);
    assert HYBRID in VERSIONS && VERSIONS[HYBRID] == HYBRID_LAYOUT;
    assert IterateWorksheets(VERSIONS, HYBRID, None) == Success(AllSheets(HYBRID_LAYOUT));
    var all := HYBRID_LAYOUT[0].sheets + (l1[0].sheets + BIOSPHERE_SHEETS);
    assert |all| == 5;
    assert all[0] == Sheet(HIOT_BOOK, "HIOT", 4, 5);
    assert all[1] == Sheet(HIOT_BOOK, "Principal_production_vector", 8, 1);
    assert all[2..] == BIOSPHERE_SHEETS;
    assert all[2] == Sheet(EXTENSIONS_BOOK, "resource_act", 4, 2);
    assert all[3] == Sheet(EXTENSIONS_BOOK, "Land_act", 4, 2);
    assert all[4] == Sheet(EXTENSIONS_BOOK, "Emiss_act", 4, 3);
    assert all == [
      Sheet(HIOT_BOOK, "HIOT", 4, 5),
      Sheet(HIOT_BOOK, "Principal_production_vector", 8, 1),
      Sheet(EXTENSIONS_BOOK, "resource_act", 4, 2),
      Sheet(EXTENSIONS_BOOK, "Land_act", 4, 2),
      Sheet(EXTENSIONS_BOOK, "Emiss_act", 4, 3)];
  }

  /* ---------------------------------------------------------------------- */
  /* get_labels_for_exiobase                                                */
  /* ---------------------------------------------------------------------- */

  /** labels_for_compressed_data on one worksheet, with its declared offsets. */
  function SheetLabels(files: Files, sheet: Sheet): Result<Labels>
  {
    var grid :- SheetGrid(files, sheet);
    LabelsForGrid(grid, Some(sheet.rowOffset), Some(sheet.colOffset))
  }

  /** No later worksheet in the list carries the same name as sheets[k]. */
  predicate LastOfName(sheets: seq<Sheet>, k: nat)
    requires k < |sheets|
  {
    forall m :: k < m < |sheets| ==> sheets[m].worksheet != sheets[k].worksheet
  }

  /** The labels of each worksheet, keyed by worksheet name; a later
      worksheet of the same name replaces an earlier one, as in a dict
      comprehension, and the first worksheet that cannot be read fails.
      `read` reads one worksheet's labels. */
  function LabelsByWorksheet(sheets: seq<Sheet>, read: Sheet -> Result<Labels>): (r: Result<map<string, Labels>>)
    ensures r.Success? <==> forall k :: 0 <= k < |sheets| ==> read(sheets[k]).Success?
    ensures r.Failure? ==>
      exists k :: 0 <= k < |sheets| && read(sheets[k]).Failure? && r.error == read(sheets[k]).error
                  && forall m :: 0 <= m < k ==> read(sheets[m]).Success?
    ensures r.Success? ==> forall name :: name in r.value <==> exists s :: s in sheets && s.worksheet == name
    ensures r.Success? ==> forall k :: 0 <= k < |sheets| && LastOfName(sheets, k) ==>
      r.value[sheets[k].worksheet] == read(sheets[k]).value
  {
    if |sheets| == 0 then Success(map[])
    else
      var first :- read(sheets[0]);
      var rest :- LabelsByWorksheet(sheets[1..], read);
      LabelsStep(sheets, read, first, rest);
      Success(map[sheets[0].worksheet := first] + rest)
  }

  /** One step of the comprehension: the first worksheet's entry, overridden
      by any later worksheet of the same name. */
  lemma LabelsStep(sheets: seq<Sheet>, read: Sheet -> Result<Labels>, first: Labels, rest: map<string, Labels>)
    requires |sheets| > 0 && read(sheets[0]) == Success(first)
    requires forall k :: 0 <= k < |sheets| ==> read(sheets[k]).Success?
    requires forall name :: name in rest <==> exists s :: s in sheets[1..] && s.worksheet == name
    requires forall k :: 0 <= k < |sheets| - 1 && LastOfName(sheets[1..], k) ==>
      rest[sheets[1..][k].worksheet] == read(sheets[1..][k]).value
    ensures var r := map[sheets[0].worksheet := first] + rest;
      && (forall name :: name in r <==> exists s :: s in sheets && s.worksheet == name)
      && forall k :: 0 <= k < |sheets| && LastOfName(sheets, k) ==> r[sheets[k].worksheet] == read(sheets[k]).value
  {
    var tail := sheets[1..];
    var r := map[sheets[0].worksheet := first] + rest;
    assert forall k :: 1 <= k < |sheets| ==> sheets[k] == tail[k - 1];
    forall k | 0 <= k < |sheets| && LastOfName(sheets, k)
      ensures r[sheets[k].worksheet] == read(sheets[k]).value
    {
      if k > 0 {
        assert LastOfName(tail, k - 1);
        assert tail[k - 1] in tail;
      }
    }
    assert forall s :: s in sheets <==> s == sheets[0] || s in tail;
  }

  /** The labels of the given worksheets of the converted files. */
  function LabelsOfSheets(files: Files, sheets: seq<Sheet>): Result<map<string, Labels>>
  {
    LabelsByWorksheet(sheets, s => SheetLabels(files, s))
  }

  /** get_labels_for_exiobase: the labels of every worksheet of a version. */
  function LabelsForExiobase(registry: Registry, files: Files, version: string): (r: Result<map<string, Labels>>)
    ensures version !in registry ==> r == Failure(UnknownVersion(version))
    ensures version in registry ==> r == LabelsOfSheets(files, AllSheets(registry[version]))
  {
    var sheets :- IterateWorksheets(registry, version, None);
    LabelsOfSheets(files, sheets)
  }
}
