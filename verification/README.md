# EXIOBASE importer model (bw_exiobase)

This project is a Dafny model of the core of `bw_exiobase`. That core converts the EXIOBASE hybrid input-output tables into the sparse technosphere and biosphere matrices of a Brightway life-cycle database. The modelled pipeline has these stages:

- **Offset detection** (`Offsets`). A converted worksheet is a grid of text cells. The number of header rows and label columns is guessed from the blank cells in its top-left 25 × 25 corner.
- **Table extraction** (`Tables`). A grid is split into row labels and column labels; the column labels are transposed with `zip_longest` and padded with `None`. Its non-blank, non-zero numeric cells are streamed as offset-relative `(row, col, value)` triples in row-major order. Python's `float()` is a parser the caller supplies.
- **Layout walking** (`Layout`). This holds the versioned layout registry, copied from `version_config.py`. It lists the worksheets of a role, chains their streams in declaration order, and reads every worksheet's labels into a dict keyed by worksheet name.
- **Technosphere assembly** (`Technosphere`, `fill_missing_production`). Inter-industry triples become flipped records and production triples become diagonal records. Every activity that production does not cover gets a unit diagonal record.
- **Biosphere assembly** (`Biosphere`, `emissions_iterator`). Each row label of an extension worksheet is fanned out by the migration rules into target flows. Each numeric cell then yields one record per target flow that has a category and known ids.
- **Identity assignment** (`StringOrder`, `Entities`). The locations are the sorted distinct regions of the activity labels, with ids 1..L. Flows and activities take their label positions as ids. The import insists on unique `(name, location)` keys and on a square matrix.
- **The import call** (`Importer`, `import_exiobase`). This stage runs the checks in the order the code runs them, then builds the two matrix streams.

Every Python exception the modelled code can raise is a `Failure` carrying a `Common.Error` that names its cause. Examples are an `IndexError` from a short label, a `KeyError` from an unmapped index, a `ValueError` from a non-numeric cell, an `AssertionError` from a failed uniqueness check, and a `TypeError` from sorting `None` together with text. The database, the migration rules and the number parser are inputs to the model.

A few behaviours of the code are easy to miss:

- Explicit offsets do replace the guessed ones. However, the guess is always computed first, so an empty grid fails even when both offsets are given (`Tables.LabelsForGrid`).
- A column can hold more than one non-flipped diagonal record when the production vector holds several cells in it. Each index has exactly one non-flipped record only when production covers each column at most once (`Technosphere.UnflippedExactlyOnce` assumes this). A technosphere cell at row i, column i also lands on the diagonal, flipped (`Technosphere.FlippedDiagonalExample`).
- The disaggregation table is built eagerly for every row label of the worksheet before any cell is read. A label with fewer than two fields therefore fails the stream even if no cell refers to it.
- A cell whose activity column has no id is skipped silently in the biosphere stream, just like a target flow without an id. The same miss in the technosphere stream is fatal.
- Flow and activity ids come from a dict over the first two label cells, so a repeated key takes its last position. The ids equal the positions only because the later uniqueness check rejects repeated keys (`Entities.IdsArePositions`).

## Model

| member | source | states |
|---|---|---|
| Common.ElementsCountDistinct | bw_exiobase/importer.py:177-182 | a list has as many distinct elements as entries exactly when nothing repeats, which is what the `len(l) == len(set(l))` checks decide |
| Common.LastIndex | bw_exiobase/importer.py:137 | a key of `{key: i for i, key in enumerate(keys)}` maps to a position holding it after which it never occurs again |
| Offsets.LastBlankEnd | bw_exiobase/utils.py:65-67 | the column offset candidate: one past a blank cell among the first n of the row, with no blank cell after it |
| Offsets.LastBlankRowEnd | bw_exiobase/utils.py:68 | the row offset candidate: one past a row whose first cell is blank, with no such row after it among the first n |
| Offsets.FirstEmptyRow | bw_exiobase/utils.py:60-68 | finds an empty row inside the window exactly when there is one, and it is the first |
| Offsets.GetOffsets | bw_exiobase/utils.py:54-70 | an empty grid or first row fails; a non-blank top-left cell gives (0, 0); otherwise an empty row in the 25-row window fails at the first such row, and success gives offsets in [1, 25] that are one past the last blank of the first row and first column inside the window; it fails exactly in those cases |
| Offsets.HeaderBlockDetected | bw_exiobase/utils.py:62-68 | a grid whose blank header block is exactly r × c inside the window is detected as (r, c) |
| Tables.ZipLongest | bw_exiobase/utils.py:44-48 | one tuple per position up to the longest header row; component k is row k's cell there, or None past its end |
| Tables.ZipLongestRoundTrip | bw_exiobase/utils.py:44-48 | each header row is recovered from its column of the transposed tuples by dropping the None fill |
| Tables.Split | bw_exiobase/utils.py:40-49 | the row label count is the grid height minus the row offset; each row label is the first col-offset cells of its data row; the column labels are the padded transpose of the header rows cut at the column offset, covering every header cell; there are as many column labels as the longest header row has cells past the column offset, and none without header rows |
| Tables.LabelsForGrid | bw_exiobase/utils.py:33-51 | fails exactly when the offset guess fails, with its error; otherwise splits at each given offset, and at the guess for each offset given as None |
| Tables.LabelCounts | bw_exiobase/utils.py:44-49 | with explicit offsets within the grid, the row label count is height minus row offset and every column label has one component per header row; the column label count is the longest header row's length past the column offset |
| Tables.RowTriples | bw_exiobase/utils.py:94-96 | within a row: fails exactly when some cell from column j on is corrupt, naming the first; otherwise every triple comes from a non-zero numeric cell, every such cell is present, and the order is left to right |
| Tables.GridTriples | bw_exiobase/utils.py:93-96 | the same over rows i onwards: failure exactly at the first corrupt cell in row-major order; soundness, completeness and row-major order on success |
| Tables.DataTriples | bw_exiobase/utils.py:91-96 | get_data_iterator: a triple (i - ro, j - co, v) exactly for each cell at or past both offsets holding text that parses to non-zero v, in row-major order; a cell with text that does not parse fails the stream, and the error names the first such cell |
| Tables.TripleRowsHaveLabels | bw_exiobase/utils.py:91-96 | every triple's row indexes a row label of the same grid cut at the same offsets |
| Layout.AllSheets | bw_exiobase/utils.py:75 | walking all roles visits exactly the worksheets of some role |
| Layout.AllSheetsAppend | bw_exiobase/utils.py:75 | the walk keeps role order: walking two runs of roles is walking each and concatenating, so repeats are kept and a later role's worksheets come later |
| Layout.AllSheetsOne | bw_exiobase/utils.py:75 | one role contributes exactly its own worksheets, in declared order |
| Layout.SheetsFor | bw_exiobase/utils.py:77 | an undeclared role fails; otherwise the worksheets declared for the role |
| Layout.IterateWorksheets | bw_exiobase/utils.py:73-77 | an unknown version fails; no role gives all worksheets, a role gives its own |
| Layout.RoleSheetsAmongAll | bw_exiobase/utils.py:73-77 | every worksheet of a role is also visited when walking all roles |
| Layout.SheetGrid | bw_exiobase/utils.py:91-92 | a worksheet that was not converted fails to open |
| Layout.ChainData | bw_exiobase/utils.py:99-110 | the chain succeeds exactly when every worksheet stream does; its triples are exactly those of the worksheet streams; a failure is some worksheet's failure |
| Layout.ChainDataAppend | bw_exiobase/utils.py:100-109 | chaining two runs of worksheets is the first run's stream followed by the second's |
| Layout.ChainSingle | bw_exiobase/utils.py:100-110 | a chain of one worksheet is that worksheet's stream |
| Layout.Selected | bw_exiobase/utils.py:107-108 | without a name every worksheet is kept; with one, exactly those carrying it |
| Layout.SelectedAppend | bw_exiobase/utils.py:100-108 | the filter keeps declaration order: filtering two runs is filtering each and concatenating |
| Layout.ChainDataMembers | bw_exiobase/utils.py:99-110 | the chain succeeds exactly when every worksheet's stream does, and then holds every triple of every one |
| Layout.ExiobaseData | bw_exiobase/utils.py:99-110 | an unknown version or role fails with that error; otherwise it succeeds exactly when every selected worksheet's stream does, every triple comes from a selected worksheet, and every triple of every selected worksheet is present |
| Layout.ExiobaseDataInOrder | bw_exiobase/utils.py:99-110 | the role's worksheets are read in declaration order: the stream of an earlier run of selected worksheets precedes that of a later run |
| Layout.SelectOnlyMatch | bw_exiobase/utils.py:107-108 | when exactly one worksheet carries the name, only it is kept |
| Layout.NoneSelected | bw_exiobase/utils.py:107-108 | when no worksheet carries the name, nothing is kept |
| Layout.EmissionsStream | bw_exiobase/version_config.py:40-47 | in the shipped registry the Emiss_act biosphere stream is that worksheet read from row 4 and column 3 |
| Layout.ShippedWorksheetOrder | bw_exiobase/version_config.py:1-50 | the shipped registry lists HIOT, Principal_production_vector, resource_act, Land_act and Emiss_act in that order with their offsets |
| Layout.LabelsByWorksheet | bw_exiobase/utils.py:80-88 | fails exactly when some worksheet cannot be read, with the error of the first such worksheet in walk order; the keys are exactly the worksheet names; a later worksheet of a name wins |
| Layout.LabelsForExiobase | bw_exiobase/utils.py:80-88 | an unknown version fails; otherwise the labels of every worksheet of the version |
| Technosphere.Emit | bw_exiobase/importer.py:52-58 | a cell fails with its row key when the row lookup misses, otherwise with its column when the column lookup misses, and succeeds exactly when both hit |
| Technosphere.EmitAll | bw_exiobase/importer.py:51-59 | a run of cells succeeds exactly when every row and column has an id, and otherwise fails with the error of the first cell without ids; and then gives one record per cell in order, with the mapped ids, the value, the flip flag and the sentinels |
| Technosphere.Seen | bw_exiobase/importer.py:60-62 | production_seen holds exactly the columns of the production triples |
| Technosphere.FallbackCells | bw_exiobase/importer.py:72-81 | every fallback cell is a unit diagonal cell of an index in range that production did not cover |
| Technosphere.FallbackCovers | bw_exiobase/importer.py:72-81 | every uncovered index in range does get a fallback cell |
| Technosphere.FillMissingProduction | bw_exiobase/importer.py:50-81 | the stream succeeds exactly when the technosphere, production and fallback cells all have ids; a failure is the technosphere run's error, else the production run's, else the fallback run's; its length is the sum of the three runs |
| Technosphere.TechnospherePhase | bw_exiobase/importer.py:51-59 | record k is technosphere triple k, mapped by row and column and flipped |
| Technosphere.ProductionPhase | bw_exiobase/importer.py:61-70 | after the technosphere records comes production triple k, mapped through its column on both axes and not flipped |
| Technosphere.FallbackPhase | bw_exiobase/importer.py:72-81 | after the production records comes fallback cell k: a unit, non-flipped record on the diagonal of its index |
| Technosphere.FlipAndSentinels | bw_exiobase/importer.py:50-81 | a record is flipped exactly when it belongs to the technosphere phase, and every record carries the sentinel in both sub-index fields |
| Technosphere.DiagonalCovered | bw_exiobase/importer.py:60-81 | every index below the size has ids and a non-flipped record on its diagonal |
| Technosphere.FlippedUncounted | bw_exiobase/importer.py:51-59 | by the definition of the unflipped amounts, a run of flipped records adds none |
| Technosphere.UnflippedAmountsOfCells | bw_exiobase/importer.py:61-70 | under an injective column map, the non-flipped amounts in the column of an index are exactly its production values |
| Technosphere.FallbackColumnValues | bw_exiobase/importer.py:72-81 | the fallback gives an index exactly one unit value if it is uncovered and in range, and nothing otherwise |
| Technosphere.UnflippedAmountsPerColumn | bw_exiobase/importer.py:60-81 | the non-flipped amounts in each index's column are its production values in order, or the single unit amount when production has none |
| Technosphere.UnflippedExactlyOnce | bw_exiobase/importer.py:60-81 | when production covers each column at most once, every index has exactly one non-flipped record in its column: with its production value, or with 1; flipped technosphere records may share the position |
| Technosphere.FlippedDiagonalExample | bw_exiobase/importer.py:51-70 | a technosphere cell at (0, 0) lands on the diagonal flipped, before the production record of the same position |
| Biosphere.ToTuple | bw_exiobase/importer.py:43-47 | a text becomes a one-element key and is never split into characters; a sequence keeps its elements |
| Biosphere.TextIsSingleton | bw_exiobase/importer.py:43-47 | an example of the collision that ToTupleInjective allows: a category as text and as a one-element list name the same flow key |
| Biosphere.ToTupleInjective | bw_exiobase/importer.py:43-47 | two categories fields give the same key exactly when they are equal or are one category as text and as a one-element list |
| Biosphere.FlowLabelAsDict | bw_exiobase/importer.py:34-40 | a label with at least two fields gives name and unit from them, amount 1, and a category exactly when there is a third field, namely that field |
| Biosphere.FlowLabelRoundTrip | bw_exiobase/importer.py:34-40 | reading a label keeps exactly its first three fields: writing the description back gives them |
| Biosphere.LabelFieldsRoundTrip | bw_exiobase/importer.py:34-40 | a description with amount 1 and no category or a text category is read back from its own fields |
| Biosphere.Disaggregation | bw_exiobase/importer.py:85-88 | one migrated list per row label in order, and it fails exactly when some label is too short, naming the first |
| Biosphere.EntryRecord | bw_exiobase/importer.py:92-105 | a target flow yields a record exactly when it has categories and both lookups hit; the record has the looked-up ids, amount value × share, is unflipped and has the sentinels |
| Biosphere.Entries | bw_exiobase/importer.py:91-105 | the records of a cell are exactly those of its surviving target flows: all of them if all survive, none if none does |
| Biosphere.EntriesOne | bw_exiobase/importer.py:96-105 | one target flow yields its record when it survives and nothing otherwise |
| Biosphere.EntriesAppend | bw_exiobase/importer.py:96-105 | the records of two runs of target flows are the first run's followed by the second's, so the records follow the migration's order |
| Biosphere.Emissions | bw_exiobase/importer.py:90-105 | the stream fails exactly when a cell's row has no label, naming the first such row |
| Biosphere.EmissionsAppend | bw_exiobase/importer.py:90-105 | the records of two runs of cells are the first run's records followed by the second's, so a skipped flow never stops the stream |
| Biosphere.EmissionsMembership | bw_exiobase/importer.py:90-105 | a record is emitted exactly when some cell has a target flow that yields it |
| Biosphere.EmissionsShape | bw_exiobase/importer.py:96-103 | every emitted record is unflipped and carries the sentinel sub-indices |
| Biosphere.EmissionsIterator | bw_exiobase/importer.py:84-105 | an unknown worksheet or a short label fails first; a failing cell stream fails with its error; otherwise the result is the fan-out of that worksheet's biosphere cells, and every record of a success is unflipped with sentinel sub-indices |
| Biosphere.SplitExample | bw_exiobase/importer.py:91-105 | a cell of value 10 whose label migrates to (A, X, 0.6) and (B, no category, 0.4) yields exactly one record, of amount 6 for A |
| StringOrder.LessTransitive | bw_exiobase/importer.py:129 | the text order that `sorted` uses is transitive |
| StringOrder.LessTotal | bw_exiobase/importer.py:129 | any two different texts are ordered one way or the other |
| StringOrder.Insert | bw_exiobase/importer.py:129 | inserting into a strictly increasing list keeps it strictly increasing and adds exactly the new element |
| StringOrder.SortDistinct | bw_exiobase/importer.py:129 | `sorted(set(s))` is strictly increasing and has exactly the elements of s |
| StringOrder.SortedUnique | bw_exiobase/importer.py:129 | two strictly increasing lists with the same elements are equal |
| Entities.Heads | bw_exiobase/importer.py:129 | the first cell of every label, failing at the first label that has none |
| Entities.SortedRegions | bw_exiobase/importer.py:129 | fails exactly when None and text regions are mixed; otherwise an ordered list of exactly the regions |
| Entities.OrderedUnique | bw_exiobase/importer.py:129 | any ordered list of the same regions is the computed one, so the location order is reproducible |
| Entities.Regions | bw_exiobase/importer.py:129 | the locations come from the activity labels' first cells, and every activity's region is among them |
| Entities.LocationRecords | bw_exiobase/importer.py:130-134 | location i has id i + 1 and the i-th sorted region as name |
| Entities.LocationId | bw_exiobase/importer.py:130-132 | a region's id is in 1..L and names that region |
| Entities.LocationRoundTrip | bw_exiobase/importer.py:170-174 | over ordered locations, the id of the i-th region is i + 1, and reading the id back gives the region |
| Entities.FlowAt | bw_exiobase/importer.py:138-150 | a row label with five cells and a known region gives a flow with name, unit and codes, whose location id names its region, and whose id has the same key as the label; a shorter label or an unknown region fails |
| Entities.Flows | bw_exiobase/importer.py:138-150 | all flows in label order, failing at the first label that fails |
| Entities.ActivityAt | bw_exiobase/importer.py:154-165 | a column label with four cells gives an activity with name and codes, whose location id names its region, with its own position + 1 as reference product, and whose id has the same key as the label; failures follow the source's read order: fewer than two cells, then an unknown region, then fewer than four cells |
| Entities.ActivityRegionBeforeCodes | bw_exiobase/importer.py:157-161 | a two-cell column label with an unknown region fails on the region, not on its missing codes |
| Entities.Activities | bw_exiobase/importer.py:154-165 | all activities in label order, failing at the first label that fails |
| Entities.Identities | bw_exiobase/importer.py:129-186 | a failing region list, then a failing flow, then a failing activity ends it with that error; a success has ordered locations numbered from 1, flows and activities built from every label, equal counts, and unique (name, location) keys on both sides |
| Entities.ChecksDecide | bw_exiobase/importer.py:177-186 | once the entities are built, a repeated flow key fails first, then a repeated activity key, then unequal counts, and the import succeeds exactly when none of these occurs |
| Entities.ActivitiesOnlyFailShort | bw_exiobase/importer.py:154-165 | an activity can fail only for a label with fewer than four cells, because its region is always a location |
| Entities.FlowIdsArePositions | bw_exiobase/importer.py:136-150 | with unique flow keys, every flow's id is its position + 1 |
| Entities.ActivityIdsArePositions | bw_exiobase/importer.py:152-165 | with unique activity keys, every activity's id is its position + 1 |
| Entities.IdsArePositions | bw_exiobase/importer.py:136-165 | after a successful import, flow and activity ids are positions + 1, and each activity's reference product is the flow at its position |
| Importer.TechnosphereStream | bw_exiobase/importer.py:211 | a failing technosphere read fails with its error, and so do unmapped technosphere cells before production is read; then a failing production read fails with its error; when both reads succeed the stream is fill_missing_production over them |
| Importer.Chain | bw_exiobase/importer.py:217-221 | the chain succeeds exactly when every stream does; its records are exactly theirs; a failure is the first failing stream's error |
| Importer.ChainAppend | bw_exiobase/importer.py:217-221 | chaining two runs of names gives the first run's records followed by the second's |
| Importer.ChainOne | bw_exiobase/importer.py:217-221 | a chain of one name is that name's stream |
| Importer.StreamDiagonal | bw_exiobase/importer.py:72-81 | every activity index of a successful technosphere stream has a non-flipped diagonal record |
| Importer.ImportExiobase | bw_exiobase/importer.py:108-221 | an existing collection ends quietly and nothing else does; an unknown version fails with that error; an import carries the identities of the HIOT labels and the two streams of the version; each later step that fails, after the earlier ones succeed, ends the call with its error (labels, missing HIOT, identities, technosphere, biosphere), and when every step succeeds the call imports |
| Importer.ImportedDiagonal | bw_exiobase/importer.py:185-211 | after an import every activity index has row and column ids and a non-flipped record on the diagonal of the technosphere matrix |
| Importer.ImportedIds | bw_exiobase/importer.py:136-165 | after an import there are as many flows as activities, activity i and flow i both have id i + 1, and the activity's reference product is that flow |
| Importer.ChainPlain | bw_exiobase/importer.py:217-221 | every record of a successful chain of emission worksheets is unflipped with sentinel sub-indices |
| Importer.ImportedBiosphere | bw_exiobase/importer.py:217-221 | after an import every biosphere record is unflipped with sentinel sub-indices |

## Left out

- Reading bz2-compressed CSV files, `convert_xlsb` and `convert_exiobase`, and the creation of the converted-data directory in `bw_exiobase/__init__.py`: this is file-system work. The converted worksheets are the `Layout.Files` input, a map from (workbook, worksheet) to a grid of text cells.
- The database: the collection query, `backend.create`, the `Flow.select` and `Activity.select` queries, `CalculationPackage.create`. Whether the collection exists is a boolean input. The flow, activity and target-flow ids are the `Importer.Inputs` maps. The entities are returned instead of written, and the `collections`, `geocollections`, `kind` and `collection_id` constants are not carried.
- `create_calculation_package`, `DTYPE` and the resources dictionaries: this is packaging. The two streams are returned as record sequences.
- `migrate_data` from bw_migrations: this is an external rule engine, modelled as the `Biosphere.Migration` function input.
- `float()`, NaN and `float32` storage: cell values are `real` and the parser is an input. `uint32` storage of ids is not modelled, and ids are unbounded naturals.
- `print` progress output.
- `get_all_biosphere_flows` (utils.py:113-115): it is not called by the import.
- The `row limit` and `col limit` descriptor fields: the code never reads them.
- Records yielded before a failure: every stream is a `Result`, so a failure loses the prefix that a consumer may already have written.
- Biosphere.EmissionsIterator: when the worksheet's cell stream fails, the model reports that failure even if an earlier cell's row had no label. The model does not see the prefix of a failed stream.
- Importer.TechnosphereStream: when the technosphere cell stream fails, the model reports that failure even if an earlier cell lacked ids. The same holds for the production stream against earlier production cells.
- Importer.ImportExiobase: `backend.create(data)` (importer.py:168) writes the collection before the uniqueness and size checks (importer.py:177-186) and before either stream is consumed. A `Failed` outcome in the code therefore leaves the collection behind, and every later call stops as already imported (importer.py:113-115), so a failed import is never retried. The model has no database state and does not promise this.
- Layout.ChainData: the failure is stated only as "some worksheet's failure". The first failing worksheet in order is what the body computes.
- Biosphere.FlowLabelAsDict: a label with fewer than two fields is reported as `ShortLabel` of its position; Python raises `IndexError`. Migrated dictionaries always carry a name and an amount, so the `KeyError` the code would swallow for a missing one does not arise.
- Common.Error: `ShortLabel` and `UnknownLocation` carry the label's position, which is a row label position for flows and a column label position for activities and locations.
- The order in which the two matrix streams are consumed is not visible in the code. The technosphere stream is taken first, as listed in `resources`.
