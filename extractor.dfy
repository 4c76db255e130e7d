/**
 * `DataExtractor`: sorted distinct values of a configured column, and the
 * timestamp values of a station's readings.
 */
module Extractor {
  import opened Wrappers
  import opened Tables
  import opened Text

  /** The three column names the extractor is configured with. */
  datatype DataExtractor = DataExtractor(cityCol: string, stationIdCol: string, timestampCol: string)

  /** Strictly ascending in Python's string order: sorted and free of duplicates. */
  predicate StrictlyAscending(s: seq<string>)
  {
    forall i, j :: 0 <= i < j < |s| ==> StrLt(s[i], s[j])
  }

  /** Adds `x` to a strictly ascending list, keeping it strictly ascending. */
  function InsertUnique(s: seq<string>, x: string): (r: seq<string>)
    requires StrictlyAscending(s)
    ensures StrictlyAscending(r)
    ensures forall v :: v in r <==> v in s || v == x
  {
    if s == [] then [x]
    else if x == s[0] then s
    else if StrLt(x, s[0]) then
      assert forall j :: 0 < j < |s| ==> StrLt(x, s[j]) by {
        forall j | 0 < j < |s| ensures StrLt(x, s[j]) {
          StrLtTransitive(x, s[0], s[j]);
        }
      }
      [x] + s
    else
      StrLtTotal(x, s[0]);
      var tail := InsertUnique(s[1..], x);
      assert forall v :: v in s <==> v == s[0] || v in s[1..];
      assert forall j :: 0 <= j < |tail| ==> StrLt(s[0], tail[j]) by {
        forall j | 0 <= j < |tail| ensures StrLt(s[0], tail[j]) {
          assert tail[j] in tail;
        }
      }
      [s[0]] + tail
  }

  /** `dropna().drop_duplicates().sort_values()` over a list of values. */
  function SortedDistinct(values: seq<string>): (r: seq<string>)
    ensures StrictlyAscending(r)
    ensures forall v :: v in r <==> v in values
  {
    if values == [] then []
    else
      var last := values[|values| - 1];
      var init := values[..|values| - 1];
      assert values == init + [last];
      InsertUnique(SortedDistinct(init), last)
  }

  /**
   * `_extract_unique_sorted_values(df, column)`: `KeyError` for an absent
   * column, else the distinct non-null values of the column in ascending order.
   */
  function ExtractUniqueSortedValues(t: Table, column: string): (r: Result<seq<string>, TableError>)
    ensures r.Err? <==> !HasColumn(t, column)
    ensures r.Err? ==> r.error == MissingColumn(column)
    ensures r.Ok? ==> StrictlyAscending(r.value)
    ensures r.Ok? ==> forall v :: v in r.value <==>
              exists i :: 0 <= i < |t.rows| && CellOf(t.rows[i], column) == Some(v)
  {
    if !HasColumn(t, column) then Err(MissingColumn(column))
    else Ok(SortedDistinct(NonNullValues(t.rows, column)))
  }

  /** `get_unique_cities`: the extraction over the configured city column. */
  function GetUniqueCities(ex: DataExtractor, t: Table): (r: Result<seq<string>, TableError>)
    ensures r.Err? <==> !HasColumn(t, ex.cityCol)
    ensures r.Ok? ==> StrictlyAscending(r.value)
    ensures r.Ok? ==> forall v :: v in r.value <==>
              exists i :: 0 <= i < |t.rows| && CellOf(t.rows[i], ex.cityCol) == Some(v)
  {
    ExtractUniqueSortedValues(t, ex.cityCol)
  }

  /** `get_unique_stations`: the extraction over the configured station-id column. */
  function GetUniqueStations(ex: DataExtractor, t: Table): (r: Result<seq<string>, TableError>)
    ensures r.Err? <==> !HasColumn(t, ex.stationIdCol)
    ensures r.Ok? ==> StrictlyAscending(r.value)
    ensures r.Ok? ==> forall v :: v in r.value <==>
              exists i :: 0 <= i < |t.rows| && CellOf(t.rows[i], ex.stationIdCol) == Some(v)
  {
    ExtractUniqueSortedValues(t, ex.stationIdCol)
  }

  /**
   * `get_station_infos`: lenient; an empty table or an absent timestamp
   * column gives `[]`, otherwise the non-null timestamps in row order,
   * duplicates kept.
   */
  function GetStationInfos(ex: DataExtractor, t: Table): (r: seq<string>)
    ensures IsEmpty(t) || !HasColumn(t, ex.timestampCol) ==> r == []
    ensures !IsEmpty(t) && HasColumn(t, ex.timestampCol) ==> r == NonNullValues(t.rows, ex.timestampCol)
    ensures |r| <= |t.rows|
    ensures forall v :: v in r ==> exists i :: 0 <= i < |t.rows| && CellOf(t.rows[i], ex.timestampCol) == Some(v)
    // row order and duplicates kept: the j-th value is the cell of the j-th row with a timestamp
    ensures !IsEmpty(t) && HasColumn(t, ex.timestampCol) ==>
              |r| == |NonNullIndices(t.rows, ex.timestampCol, 0)|
              && forall j :: 0 <= j < |r| ==>
                   CellOf(t.rows[NonNullIndices(t.rows, ex.timestampCol, 0)[j]], ex.timestampCol) == Some(r[j])
  {
    if IsEmpty(t) || !HasColumn(t, ex.timestampCol) then []
    else
      NonNullValuesInRowOrder(t.rows, ex.timestampCol, 0);
      assert t.rows[0..] == t.rows;
      NonNullValues(t.rows, ex.timestampCol)
  }

  /** Strictly ascending lists with the same elements are equal: the extraction result is determined by the set of values. */
  lemma {:induction false} StrictlyAscendingUnique(a: seq<string>, b: seq<string>)
    requires StrictlyAscending(a) && StrictlyAscending(b)
    requires forall v :: v in a <==> v in b
    ensures a == b
  {
    if a != [] {
      assert a[0] in a;
    }
    if b != [] {
      assert b[0] in b;
    }
    if a != [] && b != [] {
      assert a[0] in b && b[0] in a;
      if a[0] != b[0] {
        var i :| 0 <= i < |b| && b[i] == a[0];
        var j :| 0 <= j < |a| && a[j] == b[0];
        assert i > 0 && j > 0;
        assert StrLt(b[0], a[0]) && StrLt(a[0], b[0]);
        StrLtAsymmetric(b[0], a[0]);
      }
      assert forall v :: v in a[1..] <==> v in b[1..] by {
        forall v ensures v in a[1..] <==> v in b[1..] {
          if v in a[1..] {
            var k :| 1 <= k < |a| && a[k] == v;
            assert StrLt(a[0], v);
            StrLtIrreflexive(v);
            assert a[k] in a && v in b;
            var m :| 0 <= m < |b| && b[m] == v;
            assert m != 0 && b[1..][m - 1] == v;
          }
          if v in b[1..] {
            var k :| 1 <= k < |b| && b[k] == v;
            assert StrLt(b[0], v);
            StrLtIrreflexive(v);
            assert b[k] in b && v in a;
            var m :| 0 <= m < |a| && a[m] == v;
            assert m != 0 && a[1..][m - 1] == v;
          }
        }
      }
      StrictlyAscendingUnique(a[1..], b[1..]);
      assert a == [a[0]] + a[1..] && b == [b[0]] + b[1..];
    }
  }

  /**
   * Worked case: a column holding `b`, null, `a`, `b` with `a < b` (say
   * "Paris", null, "Lyon", "Paris") gives `[a, b]`: nulls dropped, the
   * duplicate dropped, sorted.
   */
  lemma UniqueSortedExample(column: string, a: string, b: string)
    requires StrLt(a, b)
    ensures ExtractUniqueSortedValues(
              Table([column], [map[column := Some(b)], map[column := None], map[column := Some(a)], map[column := Some(b)]]),
              column) == Ok([a, b])
  {
    var t := Table([column], [map[column := Some(b)], map[column := None], map[column := Some(a)], map[column := Some(b)]]);
    var r := ExtractUniqueSortedValues(t, column).value;
    assert a in r by { assert CellOf(t.rows[2], column) == Some(a); }
    assert b in r by { assert CellOf(t.rows[0], column) == Some(b); }
    assert forall v :: v in r <==> v == a || v == b;
    StrictlyAscendingUnique(r, [a, b]);
  }
}
