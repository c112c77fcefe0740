/** The import pipeline of import_exiobase (bw_exiobase/importer.py): check
    that the collection is new and the version known, read every
    worksheet's labels, assign identities from the HIOT labels, then build
    the technosphere stream and the chained biosphere stream. Database ids
    and the migration are inputs; writing to the database is not modelled. */
module Importer {
  import opened Common
  import opened Tables
  import opened Layout
  import opened Technosphere
  import opened Biosphere
  import opened Entities

  /** The name under which the HIOT worksheet's labels are looked up. */
  const HIOT: string := "HIOT"

  /** The biosphere worksheets, in the order their streams are chained. */
  const EMISSION_SHEETS: seq<string> := ["Emiss_act", "resource_act", "Land_act"]

  /** What an import call ends with. */
  datatype Outcome =
    | AlreadyImported
    | Imported(entities: Entities, technosphere: seq<Record>, biosphere: seq<Record>)
    | Failed(error: Error)

  /** Everything the import reads but does not compute: the layout registry,
      the converted worksheets, the number parser, the migration rules, and
      the ids the database hands out to flows (by row), activities (by
      column) and target biosphere flows (by name and categories). */
  datatype Inputs = Inputs(registry: Registry, files: Files, parse: Parser, migrate: Migration,
                           rowIds: IdMap, colIds: IdMap, flowIds: FlowIds)

  /** The technosphere stream of fill_missing_production over the
      technosphere and production worksheets. The technosphere worksheet is
      consumed before the production worksheet is read. */
  function TechnosphereStream(inputs: Inputs, version: string, size: nat): (r: Result<seq<Record>>)
    ensures r.Success? ==>
      var tech := ExiobaseData(inputs.registry, inputs.files, version, "technosphere", None, inputs.parse);
      var prod := ExiobaseData(inputs.registry, inputs.files, version, "production", None, inputs.parse);
      && tech.Success? && prod.Success?
      && FillMissingProduction(tech.value, prod.value, inputs.rowIds, inputs.colIds, size) == r
    ensures
      var tech := ExiobaseData(inputs.registry, inputs.files, version, "technosphere", None, inputs.parse);
      tech.Failure? ==> r == Failure(tech.error)
    ensures
      var tech := ExiobaseData(inputs.registry, inputs.files, version, "technosphere", None, inputs.parse);
      tech.Success? && !AllMapped(inputs.rowIds, inputs.colIds, tech.value, false) ==>
        r == Failure(EmitAll(inputs.rowIds, inputs.colIds, tech.value, false, true).error)
    ensures
      var tech := ExiobaseData(inputs.registry, inputs.files, version, "technosphere", None, inputs.parse);
      var prod := ExiobaseData(inputs.registry, inputs.files, version, "production", None, inputs.parse);
      tech.Success? && AllMapped(inputs.rowIds, inputs.colIds, tech.value, false) && prod.Failure? ==>
        r == Failure(prod.error)
    ensures
      var tech := ExiobaseData(inputs.registry, inputs.files, version, "technosphere", None, inputs.parse);
      var prod := ExiobaseData(inputs.registry, inputs.files, version, "production", None, inputs.parse);
      tech.Success? && prod.Success? ==>
        r == FillMissingProduction(tech.value, prod.value, inputs.rowIds, inputs.colIds, size)
  {
    var tech :- ExiobaseData(inputs.registry, inputs.files, version, "technosphere", None, inputs.parse);
    var techRun := EmitAll(inputs.rowIds, inputs.colIds, tech, false, true);
    if techRun.Failure? then Failure(techRun.error)
    else
      var prod :- ExiobaseData(inputs.registry, inputs.files, version, "production", None, inputs.parse);
      FillMissingProduction(tech, prod, inputs.rowIds, inputs.colIds, size)
  }

  /** itertools.chain over one stream per name, in order; the first
      stream that fails ends the chain. `stream` produces one name's stream. */
  function Chain(names: seq<string>, stream: string -> Result<seq<Record>>): (r: Result<seq<Record>>)
    ensures r.Success? <==> forall k :: 0 <= k < |names| ==> stream(names[k]).Success?
    ensures r.Success? ==> forall rec :: rec in r.value <==>
      exists k :: 0 <= k < |names| && rec in stream(names[k]).value
    ensures r.Failure? ==>
      exists k :: 0 <= k < |names| && stream(names[k]).Failure? && r.error == stream(names[k]).error
                  && forall m :: 0 <= m < k ==> stream(names[m]).Success?
  {
    if |names| == 0 then Success([])
    else
      var first := stream(names[0]);
      var tail := names[1..];
      assert forall k :: 1 <= k < |names| ==> names[k] == tail[k - 1];
      if first.Failure? then Failure(first.error)
      else
        var rest := Chain(tail, stream);
        if rest.Failure? then Failure(rest.error)
        else Success(first.value + rest.value)
  }

  /** Chaining two runs of names streams the first run's records, then the
      second's. */
  lemma {:induction false} ChainAppend(a: seq<string>, b: seq<string>, stream: string -> Result<seq<Record>>)
    requires Chain(a, stream).Success? && Chain(b, stream).Success?
    ensures Chain(a + b, stream) == Success(Chain(a, stream).value + Chain(b, stream).value)
  {
    if |a| > 0 {
      var tail := a[1..];
      TailOfAppend(a, b);
      assert Chain(tail, stream).Success?;
      ChainAppend(tail, b, stream);
      var first := stream(a[0]).value;
      var restA := Chain(tail, stream).value;
      var restB := Chain(b, stream).value;
      assert Chain(a, stream) == Success(first + restA);
      assert Chain(a + b, stream) == Success(first + (restA + restB));
      AppendAssociative(first, restA, restB);
    } else {
      assert a + b == b;
      assert Chain(a, stream) == Success([]);
      assert [] + Chain(b, stream).value == Chain(b, stream).value;
    }
  }

  /** A chain of one name is that name's stream. */
  lemma ChainOne(name: string, stream: string -> Result<seq<Record>>)
    ensures Chain([name], stream) == stream(name)
  {
    assert [name][1..] == [];
    assert Chain([], stream) == Success([]);
    if stream(name).Success? {
      assert stream(name).value + [] == stream(name).value;
    }
  }

  /** The chained emissions of the named biosphere worksheets. */
  function BiosphereChain(inputs: Inputs, version: string, labels: map<string, Labels>,
                          names: seq<string>): Result<seq<Record>>
  {
    Chain(names, name => EmissionsIterator(inputs.registry, inputs.files, version, name, labels,
                                           inputs.migrate, inputs.flowIds, inputs.colIds, inputs.parse))
  }

  /** Every index below size ends up on the diagonal of the technosphere
      stream, with a non-flipped record. */
  lemma StreamDiagonal(inputs: Inputs, version: string, size: nat, stream: seq<Record>)
    requires TechnosphereStream(inputs, version, size) == Success(stream)
    ensures forall i :: 0 <= i < size ==>
      && i in inputs.rowIds && i in inputs.colIds
      && OnDiagonal(stream, inputs.rowIds[i], inputs.colIds[i])
  {
    var tech := ExiobaseData(inputs.registry, inputs.files, version, "technosphere", None, inputs.parse).value;
    var prod := ExiobaseData(inputs.registry, inputs.files, version, "production", None, inputs.parse).value;
    DiagonalCovered(tech, prod, inputs.rowIds, inputs.colIds, size);
  }

  /** import_exiobase. A collection already present ends the call quietly;
      an unknown version, unreadable labels, a missing HIOT worksheet, a
      failed identity check or a failing stream ends it with that error. */
  function ImportExiobase(inputs: Inputs, version: string, alreadyImported: bool): (r: Outcome)
    ensures alreadyImported <==> r.AlreadyImported?
    ensures !alreadyImported && version !in inputs.registry ==> r == Failed(UnknownVersion(version))
    ensures r.Imported? ==>
      && version in inputs.registry
      && LabelsForExiobase(inputs.registry, inputs.files, version).Success?
      && HIOT in LabelsForExiobase(inputs.registry, inputs.files, version).value
      && Identities(LabelsForExiobase(inputs.registry, inputs.files, version).value[HIOT]) == Success(r.entities)
      && TechnosphereStream(inputs, version, |r.entities.activities|) == Success(r.technosphere)
      && BiosphereChain(inputs, version, LabelsForExiobase(inputs.registry, inputs.files, version).value,
                        EMISSION_SHEETS) == Success(r.biosphere)
    ensures !alreadyImported && version in inputs.registry ==>
      var labels := LabelsForExiobase(inputs.registry, inputs.files, version);
      && (labels.Failure? ==> r == Failed(labels.error))
      && (labels.Success? && HIOT !in labels.value ==> r == Failed(UnknownWorksheet(HIOT)))
    ensures !alreadyImported && version in inputs.registry ==>
      var labels := LabelsForExiobase(inputs.registry, inputs.files, version);
      labels.Success? && HIOT in labels.value ==>
        var entities := Identities(labels.value[HIOT]);
        && (entities.Failure? ==> r == Failed(entities.error))
        && (entities.Success? ==>
              var technosphere := TechnosphereStream(inputs, version, |entities.value.activities|);
              var biosphere := BiosphereChain(inputs, version, labels.value, EMISSION_SHEETS);
              && (technosphere.Failure? ==> r == Failed(technosphere.error))
              && (technosphere.Success? && biosphere.Failure? ==> r == Failed(biosphere.error))
              && (technosphere.Success? && biosphere.Success? ==>
                    r == Imported(entities.value, technosphere.value, biosphere.value)))
  {
    if alreadyImported then AlreadyImported
    else if version !in inputs.registry then Failed(UnknownVersion(version))
    else
      var labels := LabelsForExiobase(inputs.registry, inputs.files, version);
      if labels.Failure? then Failed(labels.error)
      else if HIOT !in labels.value then Failed(UnknownWorksheet(HIOT))
      else
        var entities := Identities(labels.value[HIOT]);
        if entities.Failure? then Failed(entities.error)
        else
          var size := |entities.value.activities|;
          var technosphere := TechnosphereStream(inputs, version, size);
          if technosphere.Failure? then Failed(technosphere.error)
          else
            var biosphere := BiosphereChain(inputs, version, labels.value, EMISSION_SHEETS);
            if biosphere.Failure? then Failed(biosphere.error)
            else Imported(entities.value, technosphere.value, biosphere.value)
  }

  /** After a successful import the technosphere matrix has a non-flipped
      entry on the diagonal of every activity. */
  lemma ImportedDiagonal(inputs: Inputs, version: string)
    requires ImportExiobase(inputs, version, false).Imported?
    ensures var out := ImportExiobase(inputs, version, false);
      forall i :: 0 <= i < |out.entities.activities| ==>
        && i in inputs.rowIds && i in inputs.colIds
        && OnDiagonal(out.technosphere, inputs.rowIds[i], inputs.colIds[i])
  {
    var out := ImportExiobase(inputs, version, false);
    StreamDiagonal(inputs, version, |out.entities.activities|, out.technosphere);
  }

  /** After a successful import every activity and the flow of the same
      position have that position + 1 as id, and the activity's reference
      product is that flow. */
  lemma ImportedIds(inputs: Inputs, version: string)
    requires ImportExiobase(inputs, version, false).Imported?
    ensures var e := ImportExiobase(inputs, version, false).entities;
      && |e.flows| == |e.activities|
      && forall i :: 0 <= i < |e.activities| ==>
           && e.activities[i].id == i + 1 && e.flows[i].id == i + 1
           && e.activities[i].referenceProductId == e.flows[i].id
  {
    var hiot := LabelsForExiobase(inputs.registry, inputs.files, version).value[HIOT];
    IdsArePositions(hiot);
  }

  /** After a successful import every biosphere record is unflipped and
      carries the sentinel sub-indices. */
  lemma ImportedBiosphere(inputs: Inputs, version: string)
    requires ImportExiobase(inputs, version, false).Imported?
    ensures forall rec :: rec in ImportExiobase(inputs, version, false).biosphere ==> Plain(rec)
  {
    var out := ImportExiobase(inputs, version, false);
    var labels := LabelsForExiobase(inputs.registry, inputs.files, version).value;
    ChainPlain(inputs, version, labels, EMISSION_SHEETS, out.biosphere);
  }

  /** Every record of a successful biosphere chain is unflipped and carries
      the sentinel sub-indices. */
  lemma ChainPlain(inputs: Inputs, version: string, labels: map<string, Labels>, names: seq<string>,
                   records: seq<Record>)
    requires BiosphereChain(inputs, version, labels, names) == Success(records)
    ensures forall rec :: rec in records ==> Plain(rec)
  {
    var stream := name => EmissionsIterator(inputs.registry, inputs.files, version, name, labels,
                                            inputs.migrate, inputs.flowIds, inputs.colIds, inputs.parse);
    assert Chain(names, stream) == Success(records);
    forall rec | rec in records
      ensures Plain(rec)
    {
      var k :| 0 <= k < |names| && rec in stream(names[k]).value;
    }
  }
}
