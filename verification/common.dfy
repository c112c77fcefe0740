/** Shared vocabulary of the EXIOBASE importer model: optional values, the
    failure-carrying result type that stands for Python exceptions, the
    (row, col, value) cell triple, the sparse coefficient record, and the
    clamping slice operations Python applies to lists. */
module Common {

  /** Python's None / value. */
  datatype Option<+T> = None | Some(value: T) {
    function GetOr(default: T): T
    {
      match this
      case Some(v) => v
      case None => default
    }
  }

  /** Every exception the modelled code can raise, named after its cause. */
  datatype Error =
    | EmptyGrid                            // get_offsets reads array[0][0] of an empty grid or row
    | ShortRow(row: nat)                   // get_offsets reads row[0] of an empty row
    | BadNumber(row: nat, col: nat)        // float(value) rejects a non-empty cell
    | UnknownVersion(version: string)      // VERSIONS[version]
    | UnknownRole(role: string)            // VERSIONS[version][label]
    | MissingSheet(filename: string, worksheet: string)  // the converted file does not exist
    | UnknownWorksheet(worksheet: string)  // labels[label]
    | UnmappedRow(index: nat)              // row_mapping[i] / flow_row_to_index
    | UnmappedCol(index: nat)              // col_mapping[j] / activity_col_to_index
    | UnknownSourceRow(index: nat)         // disaggregation[i]
    | ShortLabel(index: nat)               // row[k] of a label shorter than k + 1
    | UnknownLocation(index: nat)          // location_mapping[row[0]] for a flow
    | UnorderableRegions                   // sorted() over None mixed with strings
    | DuplicateFlow                        // flow (name, location) keys not unique
    | DuplicateActivity                    // activity (name, location) keys not unique
    | NotSquare                            // number of activities differs from number of flows

  /** A value, or the exception that ended the computation. */
  datatype Result<+T> = Success(value: T) | Failure(error: Error) {
    predicate IsFailure()
    {
      Failure?
    }

    function PropagateFailure<U>(): Result<U>
      requires Failure?
    {
      Failure(error)
    }

    function Extract(): T
      requires Success?
    {
      value
    }
  }

  /** A non-zero numeric cell, in coordinates relative to the table's offsets. */
  datatype Triple = Triple(row: nat, col: nat, value: real)

  /** The sentinel written to both sub-index fields of every record. */
  const MAX_SIGNED_32BIT_INT: nat := 0x7fff_ffff

  /** One sparse matrix entry: row id, column id, the two sub-indices,
      the amount and whether the entry must be sign-inverted. */
  datatype Record = Record(row: nat, col: nat, rowIndex: nat, colIndex: nat, amount: real, flip: bool)

  /** A record carrying the unused sentinel in both sub-index fields. */
  function Entry(row: nat, col: nat, amount: real, flip: bool): Record
  {
    Record(row, col, MAX_SIGNED_32BIT_INT, MAX_SIGNED_32BIT_INT, amount, flip)
  }

  /** An unflipped record carrying the sentinel in both sub-index fields. */
  predicate Plain(rec: Record)
  {
    !rec.flip && rec.rowIndex == MAX_SIGNED_32BIT_INT && rec.colIndex == MAX_SIGNED_32BIT_INT
  }

  function Min(a: nat, b: nat): nat
  {
    if a <= b then a else b
  }

  /** Python's s[:n]: the first n elements, or all of s when it is shorter. */
  function Take<T>(s: seq<T>, n: nat): (r: seq<T>)
    ensures |r| == Min(n, |s|)
    ensures forall k :: 0 <= k < |r| ==> r[k] == s[k]
  {
    s[..Min(n, |s|)]
  }

  /** Python's s[n:]: everything after the first n elements, or nothing. */
  function Drop<T>(s: seq<T>, n: nat): (r: seq<T>)
    ensures |r| == |s| - Min(n, |s|)
    ensures forall k :: 0 <= k < |r| ==> r[k] == s[k + n]
  {
    s[Min(n, |s|)..]
  }

  /** The elements of a sequence are pairwise different. */
  predicate Distinct<T(==)>(s: seq<T>)
  {
    forall a, b :: 0 <= a < b < |s| ==> s[a] != s[b]
  }

  /** The set of elements of a sequence, built element by element. */
  function Elements<T(!new)>(s: seq<T>): (r: set<T>)
    ensures forall x :: x in r <==> x in s
  {
    if |s| == 0 then {} else {s[0]} + Elements(s[1..])
  }

  /** Dropping the head of a + b drops the head of a. */
  lemma TailOfAppend<T>(a: seq<T>, b: seq<T>)
    requires |a| > 0
    ensures (a + b)[0] == a[0] && (a + b)[1..] == a[1..] + b
  {
  }

  /** Position |a| + k of a concatenation reads position k of the second part. */
  lemma AppendIndex<T>(a: seq<T>, b: seq<T>, k: nat)
    requires k < |b|
    ensures (a + b)[|a| + k] == b[k]
  {
  }

  lemma AppendAssociative<T>(a: seq<T>, b: seq<T>, c: seq<T>)
    ensures a + (b + c) == (a + b) + c
  {
  }

  /** A non-empty sequence repeats nothing exactly when its head is not in
      its tail and its tail repeats nothing. */
  lemma DistinctCons<T>(s: seq<T>)
    requires |s| > 0
    ensures Distinct(s) <==> s[0] !in s[1..] && Distinct(s[1..])
  {
    var tail := s[1..];
    if s[0] in tail {
      var b :| 0 <= b < |tail| && tail[b] == s[0];
      assert s[0] == s[b + 1];
    } else if !Distinct(tail) {
      var a, b :| 0 <= a < b < |tail| && tail[a] == tail[b];
      assert s[a + 1] == s[b + 1];
    } else {
      forall a, b | 0 <= a < b < |s|
        ensures s[a] != s[b]
      {
        assert s[b] == tail[b - 1];
        if a > 0 {
          assert s[a] == tail[a - 1];
        }
      }
    }
  }

  /** A sequence has as many distinct elements as positions exactly when no
      element repeats; this is how Python's `len(l) == len(set(l))` test
      decides uniqueness. */
  lemma {:induction false} ElementsCountDistinct<T(!new)>(s: seq<T>)
    ensures |Elements(s)| <= |s|
    ensures |Elements(s)| == |s| <==> Distinct(s)
  {
    if |s| > 0 {
      var tail := s[1..];
      ElementsCountDistinct(tail);
      DistinctCons(s);
      if s[0] in tail {
        assert Elements(s) == Elements(tail);
      } else {
        assert Elements(s) == {s[0]} + Elements(tail);
        assert s[0] !in Elements(tail);
      }
    }
  }

  /** The position a dict comprehension {key: i for i, key in enumerate(s)}
      keeps for x: the last one, since a later key overrides an earlier one. */
  function LastIndex<T(==)>(s: seq<T>, x: T): (r: nat)
    requires x in s
    ensures r < |s| && s[r] == x
    ensures forall m :: r < m < |s| ==> s[m] != x
  {
    if s[|s| - 1] == x then |s| - 1
    else
      assert x in s[..|s| - 1] by {
        var k :| 0 <= k < |s| && s[k] == x;
        assert s[..|s| - 1][k] == x;
      }
      LastIndex(s[..|s| - 1], x)
  }
}
