/** Identity assignment in import_exiobase (bw_exiobase/importer.py): the
    locations are the sorted distinct regions of the activity labels, the
    flows and activities take their label positions as ids, and the import
    insists on unique (name, location) keys and a square matrix. */
module Entities {
  import opened Common
  import opened StringOrder
  import opened Tables

  /** The region cell of an activity label; None where the header was padded. */
  type Region = Option<string>

  datatype Location = Location(id: nat, name: Region)

  /** A product flow: one row label of the HIOT worksheet. `location` is
      the name the import looks up again from `locationId`. */
  datatype Flow = Flow(id: nat, name: string, unit: string, locationId: nat, location: Region,
                       code1: string, code2: string)

  /** An activity: one column label of the HIOT worksheet. */
  datatype Activity = Activity(id: nat, name: Region, locationId: nat, location: Region,
                               referenceProductId: nat, code1: Region, code2: Region)

  datatype Entities = Entities(locations: seq<Location>, flows: seq<Flow>, activities: seq<Activity>)

  /* ---------------------------------------------------------------------- */
  /* Locations                                                              */
  /* ---------------------------------------------------------------------- */

  /** The first cell of every label; the first label without cells fails. */
  function Heads<T>(labels: seq<seq<T>>): (r: Result<seq<T>>)
    ensures r.Success? <==> forall i :: 0 <= i < |labels| ==> |labels[i]| > 0
    ensures r.Success? ==> |r.value| == |labels| && forall i :: 0 <= i < |labels| ==> r.value[i] == labels[i][0]
    ensures r.Failure? ==>
      exists i :: 0 <= i < |labels| && |labels[i]| == 0 && r.error == ShortLabel(i)
                  && forall m :: 0 <= m < i ==> |labels[m]| > 0
  {
    if |labels| == 0 then Success([])
    else
      var last := |labels| - 1;
      var front := Heads(labels[..last]);
      assert forall i :: 0 <= i < last ==> labels[..last][i] == labels[i];
      if front.Failure? then Failure(front.error)
      else if |labels[last]| == 0 then Failure(ShortLabel(last))
      else Success(front.value + [labels[last][0]])
  }

  /** Every region is a text. */
  predicate AllText(keys: seq<Region>)
  {
    forall k :: 0 <= k < |keys| ==> keys[k].Some?
  }

  function Texts(keys: seq<Region>): (r: seq<string>)
    requires AllText(keys)
    ensures |r| == |keys| && forall k :: 0 <= k < |r| ==> keys[k] == Some(r[k])
  {
    seq(|keys|, k requires 0 <= k < |keys| => keys[k].value)
  }

  function Lift(s: seq<string>): (r: seq<Region>)
    ensures |r| == |s| && forall k :: 0 <= k < |r| ==> r[k] == Some(s[k])
  {
    seq(|s|, k requires 0 <= k < |s| => Some(s[k]))
  }

  /** The shape a sorted set of regions can have: a lone None (sorting one
      element compares nothing), or strictly increasing texts. */
  predicate Ordered(locs: seq<Region>)
  {
    locs == [None] || (AllText(locs) && StrictlySorted(Texts(locs)))
  }

  /** sorted() of the set of regions: None next to a text cannot be
      compared and fails; otherwise the distinct regions in increasing order. */
  function SortedRegions(keys: seq<Region>): (r: Result<seq<Region>>)
    ensures r.Failure? <==>
      (exists a :: 0 <= a < |keys| && keys[a].None?) && (exists b :: 0 <= b < |keys| && keys[b].Some?)
    ensures r.Failure? ==> r.error == UnorderableRegions
    ensures r.Success? ==> Ordered(r.value)
    ensures r.Success? ==> forall x :: x in r.value <==> x in keys
  {
    if exists a :: 0 <= a < |keys| && keys[a].None? then
      if exists b :: 0 <= b < |keys| && keys[b].Some? then Failure(UnorderableRegions)
      else
        assert forall x :: x in keys ==> x == None by {
          forall x | x in keys
            ensures x == None
          {
            var k :| 0 <= k < |keys| && keys[k] == x;
          }
        }
        Success([None])
    else
      var texts := Texts(keys);
      var sorted := SortDistinct(texts);
      assert forall x :: x in keys <==> x.Some? && x.value in texts by {
        forall x
          ensures x in keys <==> x.Some? && x.value in texts
        {
          if x in keys {
            var k :| 0 <= k < |keys| && keys[k] == x;
            assert texts[k] == x.value;
          }
          if x.Some? && x.value in texts {
            var k :| 0 <= k < |texts| && texts[k] == x.value;
            assert keys[k] == x;
          }
        }
      }
      var r := Lift(sorted);
      assert forall x :: x in r <==> x.Some? && x.value in sorted by {
        forall x
          ensures x in r <==> x.Some? && x.value in sorted
        {
          if x.Some? && x.value in sorted {
            var k :| 0 <= k < |sorted| && sorted[k] == x.value;
            assert r[k] == x;
          }
        }
      }
      assert Texts(r) == sorted;
      Success(r)
  }

  /** The sorted regions are the only ordered list of those regions, so the
      result does not depend on how the sort proceeds. */
  lemma OrderedUnique(keys: seq<Region>, other: seq<Region>)
    requires SortedRegions(keys).Success?
    requires Ordered(other) && forall x :: x in other <==> x in keys
    ensures other == SortedRegions(keys).value
  {
    var locs := SortedRegions(keys).value;
    if None !in locs {
      assert None !in other;
      assert AllText(locs) && AllText(other);
      var a := Texts(locs);
      var b := Texts(other);
      forall y
        ensures y in a <==> y in b
      {
        if y in a {
          var k :| 0 <= k < |a| && a[k] == y;
          assert Some(y) in other;
          var m :| 0 <= m < |other| && other[m] == Some(y);
          assert b[m] == y;
        }
        if y in b {
          var k :| 0 <= k < |b| && b[k] == y;
          assert Some(y) in locs;
          var m :| 0 <= m < |locs| && locs[m] == Some(y);
          assert a[m] == y;
        }
      }
      SortedUnique(a, b);
      assert forall k :: 0 <= k < |locs| ==> locs[k] == Some(a[k]);
      assert forall k :: 0 <= k < |other| ==> other[k] == Some(b[k]);
    }
  }

  /** The location list: the sorted regions of the activity labels' first
      cells. */
  function Regions(cols: seq<seq<Region>>): (r: Result<seq<Region>>)
    ensures Heads(cols).Failure? ==> r == Failure(Heads(cols).error)
    ensures Heads(cols).Success? ==> r == SortedRegions(Heads(cols).value)
    ensures r.Success? ==> forall k :: 0 <= k < |cols| ==> |cols[k]| > 0 && cols[k][0] in r.value
  {
    var heads :- Heads(cols);
    assert forall k :: 0 <= k < |cols| ==> heads[k] in heads;
    SortedRegions(heads)
  }

  /** The location records: ids 1, 2, ... in sorted order. */
  function LocationRecords(locs: seq<Region>): (r: seq<Location>)
    ensures |r| == |locs|
    ensures forall i :: 0 <= i < |r| ==> r[i].id == i + 1 && r[i].name == locs[i]
  {
    seq(|locs|, i requires 0 <= i < |locs| => Location(i + 1, locs[i]))
  }

  /** location_mapping[x] + 1. */
  function LocationId(locs: seq<Region>, x: Region): (r: nat)
    requires x in locs
    ensures 1 <= r <= |locs| && locs[r - 1] == x
  {
    LastIndex(locs, x) + 1
  }

  /** The region a location id names again, as the importer recovers it
      after writing. */
  function LocationOf(locs: seq<Region>, id: nat): Region
    requires 1 <= id <= |locs|
  {
    locs[id - 1]
  }

  /** With ordered locations the id of a region is its position + 1, and
      reading the id back gives the region: naming is a round trip. */
  lemma LocationRoundTrip(locs: seq<Region>, i: nat)
    requires Ordered(locs) && i < |locs|
    ensures LocationId(locs, locs[i]) == i + 1
    ensures LocationOf(locs, LocationId(locs, locs[i])) == locs[i]
  {
    if locs != [None] {
      SortedDistinct(Texts(locs));
      assert Distinct(locs);
    }
  }

  /* ---------------------------------------------------------------------- */
  /* Flows                                                                  */
  /* ---------------------------------------------------------------------- */

  /** The keys of flow_mapping and activity_mapping: `tuple(row[:2])`, the
      first two cells of each label. */
  function LabelKeys<T>(labels: seq<seq<T>>): (r: seq<seq<T>>)
    ensures |r| == |labels| && forall k :: 0 <= k < |r| ==> r[k] == Take(labels[k], 2)
  {
    seq(|labels|, k requires 0 <= k < |labels| => Take(labels[k], 2))
  }

  /** The flow of row label k: id from flow_mapping, name, unit (fifth cell)
      and the location of its region. A label with fewer than five cells or
      with an unknown region fails. */
  function FlowAt(rows: seq<seq<string>>, locs: seq<Region>, k: nat): (r: Result<Flow>)
    requires k < |rows|
    ensures r.Success? <==> |rows[k]| >= 5 && Some(rows[k][0]) in locs
    ensures |rows[k]| < 5 ==> r == Failure(ShortLabel(k))
    ensures |rows[k]| >= 5 && Some(rows[k][0]) !in locs ==> r == Failure(UnknownLocation(k))
    ensures r.Success? ==>
      && r.value.name == rows[k][1] && r.value.unit == rows[k][4]
      && r.value.code1 == rows[k][2] && r.value.code2 == rows[k][3]
      && 1 <= r.value.locationId <= |locs| && r.value.location == Some(rows[k][0])
      && LocationOf(locs, r.value.locationId) == r.value.location
      && 1 <= r.value.id <= |rows| && LabelKeys(rows)[r.value.id - 1] == LabelKeys(rows)[k]
  {
    var row := rows[k];
    if |row| < 5 then Failure(ShortLabel(k))
    else if Some(row[0]) !in locs then Failure(UnknownLocation(k))
    else
      var keys := LabelKeys(rows);
      var loc := LocationId(locs, Some(row[0]));
      Success(Flow(LastIndex(keys, keys[k]) + 1, row[1], row[4], loc, LocationOf(locs, loc), row[2], row[3]))
  }

  /** The flows of the first n row labels, in order; the first that fails
      fails the list. */
  function Flows(rows: seq<seq<string>>, locs: seq<Region>, n: nat): (r: Result<seq<Flow>>)
    requires n <= |rows|
    ensures r.Success? <==> forall k :: 0 <= k < n ==> FlowAt(rows, locs, k).Success?
    ensures r.Success? ==> |r.value| == n && forall k :: 0 <= k < n ==> r.value[k] == FlowAt(rows, locs, k).value
    ensures r.Failure? ==>
      exists k :: 0 <= k < n && FlowAt(rows, locs, k).Failure? && r.error == FlowAt(rows, locs, k).error
                  && forall m :: 0 <= m < k ==> FlowAt(rows, locs, m).Success?
  {
    if n == 0 then Success([])
    else
      var front := Flows(rows, locs, n - 1);
      var last := FlowAt(rows, locs, n - 1);
      if front.Failure? then Failure(front.error)
      else if last.Failure? then Failure(last.error)
      else Success(front.value + [last.value])
  }

  /* ---------------------------------------------------------------------- */
  /* Activities                                                             */
  /* ---------------------------------------------------------------------- */

  /** The activity of column label k: id from activity_mapping, name, the
      location of its region, and the flow of the same position as its
      reference product. The cells are read in the source's order: the
      name first, then the region's location, then the two codes, so a
      label of two or three cells with an unknown region fails on the
      region. */
  function ActivityAt(cols: seq<seq<Region>>, locs: seq<Region>, k: nat): (r: Result<Activity>)
    requires k < |cols|
    ensures r.Success? <==> |cols[k]| >= 4 && cols[k][0] in locs
    ensures |cols[k]| < 2 ==> r == Failure(ShortLabel(k))
    ensures |cols[k]| >= 2 && cols[k][0] !in locs ==> r == Failure(UnknownLocation(k))
    ensures |cols[k]| < 4 && (|cols[k]| < 2 || cols[k][0] in locs) ==> r == Failure(ShortLabel(k))
    ensures r.Success? ==>
      && r.value.name == cols[k][1] && r.value.referenceProductId == k + 1
      && r.value.code1 == cols[k][2] && r.value.code2 == cols[k][3]
      && 1 <= r.value.locationId <= |locs| && r.value.location == cols[k][0]
      && LocationOf(locs, r.value.locationId) == r.value.location
      && 1 <= r.value.id <= |cols| && LabelKeys(cols)[r.value.id - 1] == LabelKeys(cols)[k]
  {
    var col := cols[k];
    if |col| < 2 then Failure(ShortLabel(k))
    else if col[0] !in locs then Failure(UnknownLocation(k))
    else if |col| < 4 then Failure(ShortLabel(k))
    else
      var keys := LabelKeys(cols);
      var loc := LocationId(locs, col[0]);
      Success(Activity(LastIndex(keys, keys[k]) + 1, col[1], loc, LocationOf(locs, loc), k + 1, col[2], col[3]))
  }

  /** The region is looked up before the codes are read: a two-cell label
      with an unknown region fails on the region. */
  lemma ActivityRegionBeforeCodes()
    ensures ActivityAt([[Some("XX"), Some("n")]], [], 0) == Failure(UnknownLocation(0))
  {
  }

  /** The activities of the first n column labels, in order. */
  function Activities(cols: seq<seq<Region>>, locs: seq<Region>, n: nat): (r: Result<seq<Activity>>)
    requires n <= |cols|
    ensures r.Success? <==> forall k :: 0 <= k < n ==> ActivityAt(cols, locs, k).Success?
    ensures r.Success? ==> |r.value| == n && forall k :: 0 <= k < n ==> r.value[k] == ActivityAt(cols, locs, k).value
    ensures r.Failure? ==>
      exists k :: 0 <= k < n && ActivityAt(cols, locs, k).Failure? && r.error == ActivityAt(cols, locs, k).error
                  && forall m :: 0 <= m < k ==> ActivityAt(cols, locs, m).Success?
  {
    if n == 0 then Success([])
    else
      var front := Activities(cols, locs, n - 1);
      var last := ActivityAt(cols, locs, n - 1);
      if front.Failure? then Failure(front.error)
      else if last.Failure? then Failure(last.error)
      else Success(front.value + [last.value])
  }

  /* ---------------------------------------------------------------------- */
  /* Uniqueness and the square check                                        */
  /* ---------------------------------------------------------------------- */

  /** The (name, location) key of every flow. */
  function FlowKeys(flows: seq<Flow>): seq<(string, Region)>
  {
    seq(|flows|, k requires 0 <= k < |flows| => (flows[k].name, flows[k].location))
  }

  /** The (name, location) key of every activity. */
  function ActivityKeys(acts: seq<Activity>): seq<(Region, Region)>
  {
    seq(|acts|, k requires 0 <= k < |acts| => (acts[k].name, acts[k].location))
  }

  /** Python's `len(l) == len(set(l))`. */
  predicate NoRepeats<T(==,!new)>(s: seq<T>)
  {
    |Elements(s)| == |s|
  }

  /** The body of import_exiobase up to the matrices: locations, flows and
      activities from the HIOT labels, then the uniqueness and square checks
      in that order. */
  function Identities(hiot: Labels): (r: Result<Entities>)
    ensures Regions(hiot.colLabels).Failure? ==> r == Failure(Regions(hiot.colLabels).error)
    ensures Regions(hiot.colLabels).Success? ==>
      var flows := Flows(hiot.rowLabels, Regions(hiot.colLabels).value, |hiot.rowLabels|);
      flows.Failure? ==> r == Failure(flows.error)
    ensures Regions(hiot.colLabels).Success? ==>
      var flows := Flows(hiot.rowLabels, Regions(hiot.colLabels).value, |hiot.rowLabels|);
      var acts := Activities(hiot.colLabels, Regions(hiot.colLabels).value, |hiot.colLabels|);
      flows.Success? && acts.Failure? ==> r == Failure(acts.error)
    ensures r.Success? ==>
      var locs := Regions(hiot.colLabels).value;
      && Ordered(locs)
      && r.value.locations == LocationRecords(locs)
      && Flows(hiot.rowLabels, locs, |hiot.rowLabels|) == Success(r.value.flows)
      && Activities(hiot.colLabels, locs, |hiot.colLabels|) == Success(r.value.activities)
      && |r.value.flows| == |r.value.activities| == |hiot.rowLabels| == |hiot.colLabels|
      && Distinct(FlowKeys(r.value.flows))
      && Distinct(ActivityKeys(r.value.activities))
  {
    var locs :- Regions(hiot.colLabels);
    var flows :- Flows(hiot.rowLabels, locs, |hiot.rowLabels|);
    var acts :- Activities(hiot.colLabels, locs, |hiot.colLabels|);
    var flowKeys := FlowKeys(flows);
    var actKeys := ActivityKeys(acts);
    ElementsCountDistinct(flowKeys);
    ElementsCountDistinct(actKeys);
    if !NoRepeats(flowKeys) then Failure(DuplicateFlow)
    else if !NoRepeats(actKeys) then Failure(DuplicateActivity)
    else if |acts| != |flows| then Failure(NotSquare)
    else Success(Entities(LocationRecords(locs), flows, acts))
  }

  /** Once the earlier steps succeed, the import goes through exactly when
      both key lists repeat nothing and there are as many activities as
      flows; a repeated flow key is reported before a repeated activity key,
      and both before a non-square matrix. */
  lemma ChecksDecide(hiot: Labels)
    requires Regions(hiot.colLabels).Success?
    requires Flows(hiot.rowLabels, Regions(hiot.colLabels).value, |hiot.rowLabels|).Success?
    requires Activities(hiot.colLabels, Regions(hiot.colLabels).value, |hiot.colLabels|).Success?
    ensures
      var locs := Regions(hiot.colLabels).value;
      var flowKeys := FlowKeys(Flows(hiot.rowLabels, locs, |hiot.rowLabels|).value);
      var actKeys := ActivityKeys(Activities(hiot.colLabels, locs, |hiot.colLabels|).value);
      var r := Identities(hiot);
      && (!Distinct(flowKeys) ==> r == Failure(DuplicateFlow))
      && (Distinct(flowKeys) && !Distinct(actKeys) ==> r == Failure(DuplicateActivity))
      && (Distinct(flowKeys) && Distinct(actKeys) && |hiot.rowLabels| != |hiot.colLabels| ==> r == Failure(NotSquare))
      && (r.Success? <==> Distinct(flowKeys) && Distinct(actKeys) && |hiot.rowLabels| == |hiot.colLabels|)
  {
    var locs := Regions(hiot.colLabels).value;
    ElementsCountDistinct(FlowKeys(Flows(hiot.rowLabels, locs, |hiot.rowLabels|).value));
    ElementsCountDistinct(ActivityKeys(Activities(hiot.colLabels, locs, |hiot.colLabels|).value));
  }

  /** Every region of an activity label is among the locations, so an
      activity fails only for a label with fewer than four cells. */
  lemma ActivitiesOnlyFailShort(cols: seq<seq<Region>>, k: nat)
    requires Regions(cols).Success? && k < |cols|
    ensures ActivityAt(cols, Regions(cols).value, k).Success? <==> |cols[k]| >= 4
  {
  }

  /** With unique (name, location) keys every flow's id is its position + 1. */
  lemma FlowIdsArePositions(rows: seq<seq<string>>, locs: seq<Region>)
    requires Flows(rows, locs, |rows|).Success?
    requires Distinct(FlowKeys(Flows(rows, locs, |rows|).value))
    ensures var flows := Flows(rows, locs, |rows|).value;
      forall k :: 0 <= k < |flows| ==> flows[k].id == k + 1
  {
    var flows := Flows(rows, locs, |rows|).value;
    forall k | 0 <= k < |flows|
      ensures flows[k].id == k + 1
    {
      var m := FlowAt(rows, locs, k).value.id - 1;
      assert FlowAt(rows, locs, m).Success?;
      assert LabelKeys(rows)[m] == LabelKeys(rows)[k];
      assert rows[m][0] == rows[k][0] && rows[m][1] == rows[k][1] by {
        assert Take(rows[m], 2)[0] == Take(rows[k], 2)[0];
        assert Take(rows[m], 2)[1] == Take(rows[k], 2)[1];
      }
      assert FlowKeys(flows)[m] == FlowKeys(flows)[k];
    }
  }

  /** With unique (name, location) keys every activity's id is its
      position + 1. */
  lemma ActivityIdsArePositions(cols: seq<seq<Region>>, locs: seq<Region>)
    requires Activities(cols, locs, |cols|).Success?
    requires Distinct(ActivityKeys(Activities(cols, locs, |cols|).value))
    ensures var acts := Activities(cols, locs, |cols|).value;
      forall k :: 0 <= k < |acts| ==> acts[k].id == k + 1
  {
    var acts := Activities(cols, locs, |cols|).value;
    forall k | 0 <= k < |acts|
      ensures acts[k].id == k + 1
    {
      var m := ActivityAt(cols, locs, k).value.id - 1;
      assert ActivityAt(cols, locs, m).Success?;
      assert LabelKeys(cols)[m] == LabelKeys(cols)[k];
      assert cols[m][0] == cols[k][0] && cols[m][1] == cols[k][1] by {
        assert Take(cols[m], 2)[0] == Take(cols[k], 2)[0];
        assert Take(cols[m], 2)[1] == Take(cols[k], 2)[1];
      }
      assert ActivityKeys(acts)[m] == ActivityKeys(acts)[k];
    }
  }

  /** After a successful import every flow's id is its position + 1, every
      activity's id is its position + 1, and every activity's reference
      product is the flow of the same position. */
  lemma IdsArePositions(hiot: Labels)
    requires Identities(hiot).Success?
    ensures var e := Identities(hiot).value;
      forall k :: 0 <= k < |e.flows| ==> e.flows[k].id == k + 1
    ensures var e := Identities(hiot).value;
      forall k :: 0 <= k < |e.activities| ==>
        e.activities[k].id == k + 1 && e.activities[k].referenceProductId == e.flows[k].id
  {
    var locs := Regions(hiot.colLabels).value;
    FlowIdsArePositions(hiot.rowLabels, locs);
    ActivityIdsArePositions(hiot.colLabels, locs);
  }
}
