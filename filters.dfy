/**
 * The row and column filters of the catalog pipeline (`DataFilter.filter`
 * implementations) and their composition in list order.
 */
module Filters {
  import opened Wrappers
  import opened Tables
  import Text

  /** `ColumnFilter.columns_to_keep`. */
  const ColumnsToKeep: seq<string> := ["heure_de_paris", "temperature_en_degre_c", "humidite", "pression"]

  /** Python truthiness of the optional excludeKeyword keyword: `None` and `""` switch exclusion off. */
  predicate ExcludeActive(excludeKeyword: Option<string>)
  {
    excludeKeyword.Some? && excludeKeyword.value != ""
  }

  /** The boolean mask of `KeywordFilter.filter` for one row. */
  predicate KeywordMask(row: Row, column: string, includeKeyword: string, excludeKeyword: Option<string>)
  {
    CellContains(row, column, includeKeyword) && (ExcludeActive(excludeKeyword) ==> !CellContains(row, column, excludeKeyword.value))
  }

  /** `KeywordFilter(column, includeKeyword, excludeKeyword).filter(df)`. */
  function KeywordFilter(t: Table, column: string, includeKeyword: string, excludeKeyword: Option<string>): (r: Result<Table, TableError>)
    ensures r.Err? <==> !HasColumn(t, column)
    ensures r.Err? ==> r.error == MissingColumn(column)
    ensures r.Ok? ==> r.value.columns == t.columns && IsSubsequence(r.value.rows, t.rows)
    // every kept row has a non-null cell containing the includeKeyword keyword
    ensures r.Ok? ==> forall row :: row in r.value.rows ==>
              CellOf(row, column).Some? && Text.ContainsIgnoreCase(CellOf(row, column).value, includeKeyword)
    // no kept row contains an active excludeKeyword keyword
    ensures r.Ok? && ExcludeActive(excludeKeyword) ==> forall row :: row in r.value.rows ==>
              !Text.ContainsIgnoreCase(CellOf(row, column).value, excludeKeyword.value)
    // and every input row that passes both tests is kept
    ensures r.Ok? ==>
              forall row :: row in t.rows && CellOf(row, column).Some?
                              && Text.ContainsIgnoreCase(CellOf(row, column).value, includeKeyword)
                              && (ExcludeActive(excludeKeyword) ==>
                                    !Text.ContainsIgnoreCase(CellOf(row, column).value, excludeKeyword.value))
                            ==> row in r.value.rows
    // each kept row as many times as in the input, each dropped row not at all
    ensures r.Ok? ==> forall row :: multiset(r.value.rows)[row] ==
                           if KeywordMask(row, column, includeKeyword, excludeKeyword) then multiset(t.rows)[row] else 0
  {
    if !HasColumn(t, column) then Err(MissingColumn(column))
    else Ok(Table(t.columns, Where(t.rows, row => KeywordMask(row, column, includeKeyword, excludeKeyword))))
  }

  /** `CityFilter(column, city_name).filter(df)`. */
  function CityFilter(t: Table, column: string, cityName: string): (r: Result<Table, TableError>)
    ensures r.Err? <==> !HasColumn(t, column)
    ensures r.Err? ==> r.error == MissingColumn(column)
    ensures r.Ok? ==> r.value.columns == t.columns && IsSubsequence(r.value.rows, t.rows)
    ensures r.Ok? ==> forall row :: row in r.value.rows <==>
              row in t.rows && CellOf(row, column).Some? && Text.ContainsIgnoreCase(CellOf(row, column).value, cityName)
    ensures r.Ok? ==> forall row :: multiset(r.value.rows)[row] ==
                           if CellContains(row, column, cityName) then multiset(t.rows)[row] else 0
  {
    if !HasColumn(t, column) then Err(MissingColumn(column))
    else Ok(Table(t.columns, Where(t.rows, row => CellContains(row, column, cityName))))
  }

  /** `MeteoFilter.filter(df)`; indexing the absent `datasetid` column raises `KeyError` in pandas. */
  function MeteoFilter(t: Table): (r: Result<Table, TableError>)
    ensures r.Err? <==> !HasColumn(t, "datasetid")
    ensures r.Ok? ==> r.value.columns == t.columns && IsSubsequence(r.value.rows, t.rows)
    ensures r.Ok? ==> forall row :: row in r.value.rows <==>
              row in t.rows && CellOf(row, "datasetid").Some?
              && Text.ContainsIgnoreCase(CellOf(row, "datasetid").value, "meteo")
              && !Text.ContainsIgnoreCase(CellOf(row, "datasetid").value, "archive")
    ensures r.Ok? ==> forall row :: multiset(r.value.rows)[row] ==
                           if CellContains(row, "datasetid", "meteo") && !CellContains(row, "datasetid", "archive")
                           then multiset(t.rows)[row] else 0
  {
    if !HasColumn(t, "datasetid") then Err(MissingColumn("datasetid"))
    else Ok(Table(t.columns, Where(t.rows, row =>
      CellContains(row, "datasetid", "meteo") && !CellContains(row, "datasetid", "archive"))))
  }

  /** The hard-coded meteo filter is the keyword filter on `datasetid` with includeKeyword "meteo", excludeKeyword "archive". */
  lemma MeteoFilterIsKeywordFilter(t: Table)
    ensures MeteoFilter(t) == KeywordFilter(t, "datasetid", "meteo", Some("archive"))
  {
    if HasColumn(t, "datasetid") {
      var a := MeteoFilter(t).value.rows;
      var b := KeywordFilter(t, "datasetid", "meteo", Some("archive")).value.rows;
      SameMaskSameRows(t.rows,
        row => CellContains(row, "datasetid", "meteo") && !CellContains(row, "datasetid", "archive"),
        row => KeywordMask(row, "datasetid", "meteo", Some("archive")));
    }
  }

  /** The city filter is the keyword filter without an excludeKeyword keyword. */
  lemma CityFilterIsKeywordFilter(t: Table, column: string, cityName: string)
    ensures CityFilter(t, column, cityName) == KeywordFilter(t, column, cityName, None)
  {
    SameMaskSameRows(t.rows, row => CellContains(row, column, cityName),
      row => KeywordMask(row, column, cityName, None));
  }

  lemma {:induction false} SameMaskSameRows(rows: seq<Row>, p: Row -> bool, q: Row -> bool)
    requires forall row :: p(row) == q(row)
    ensures Where(rows, p) == Where(rows, q)
  {
    if rows != [] {
      SameMaskSameRows(rows[1..], p, q);
    }
  }

  /** `[col for col in keep if col in columns]`. */
  function ExistingColumns(keep: seq<string>, columns: seq<string>): (r: seq<string>)
    ensures IsSubsequence(r, keep)
    ensures forall c :: c in r <==> c in keep && c in columns
    ensures (forall c :: c in keep ==> c !in columns) ==> r == []
  {
    if keep == [] then []
    else
      var tail := ExistingColumns(keep[1..], columns);
      assert forall c :: c in keep <==> c == keep[0] || c in keep[1..];
      if keep[0] in columns then
        assert ([keep[0]] + tail)[1..] == tail;
        [keep[0]] + tail
      else tail
  }

  /** One row of `df[columns]`. */
  function ProjectRow(row: Row, columns: seq<string>): (r: Row)
    ensures forall c :: c in columns ==> CellOf(r, c) == CellOf(row, c)
    ensures forall c :: c in r ==> c in columns
  {
    map c | c in row && c in columns :: row[c]
  }

  /**
   * `ColumnFilter.filter(df)` with `columns_to_keep` given: an empty table is
   * returned unchanged; otherwise the requested columns that exist, in the
   * requested order, possibly none at all.
   */
  function SelectColumns(t: Table, keep: seq<string>): (r: Table)
    ensures IsEmpty(t) ==> r == t
    ensures !IsEmpty(t) ==> IsSubsequence(r.columns, keep)
    ensures !IsEmpty(t) ==> forall c :: c in r.columns <==> c in keep && c in t.columns
    // none of the requested columns present: zero columns, and no error
    ensures !IsEmpty(t) && (forall c :: c in keep ==> c !in t.columns) ==> r.columns == []
    ensures |r.rows| == |t.rows|
    ensures !IsEmpty(t) ==> forall i, c :: 0 <= i < |t.rows| && c in r.columns ==>
              CellOf(r.rows[i], c) == CellOf(t.rows[i], c)
    ensures !IsEmpty(t) ==> forall i, c :: 0 <= i < |t.rows| && c in r.rows[i] ==> c in r.columns
  {
    if IsEmpty(t) then t
    else
      var existing := ExistingColumns(keep, t.columns);
      Table(existing, seq(|t.rows|, i requires 0 <= i < |t.rows| => ProjectRow(t.rows[i], existing)))
  }

  /** `ColumnFilter().filter(df)` with its fixed list of four columns. */
  function ColumnFilter(t: Table): (r: Table)
    ensures IsEmpty(t) ==> r == t
    ensures !IsEmpty(t) ==> forall c :: c in r.columns <==> c in ColumnsToKeep && c in t.columns
  {
    SelectColumns(t, ColumnsToKeep)
  }

  /** Each implementation of `DataFilter` the pipeline uses. */
  datatype Filter =
    | Keyword(column: string, includeKeyword: string, excludeKeyword: Option<string>)
    | City(column: string, cityName: string)
    | Columns
    | Meteo
    | Composite(filters: seq<Filter>)

  /** `f.filter(t)`; a raised `KeyError` is an `Err`. */
  function Apply(f: Filter, t: Table): Result<Table, TableError>
    decreases f, 1
  {
    match f
    case Keyword(column, includeKeyword, excludeKeyword) => KeywordFilter(t, column, includeKeyword, excludeKeyword)
    case City(column, cityName) => CityFilter(t, column, cityName)
    case Columns => Ok(ColumnFilter(t))
    case Meteo => MeteoFilter(t)
    case Composite(filters) => ApplyInOrder(filters, t)
  }

  /** The left fold of `CompositeFilter.filter`: each filter's output feeds the next; the first error stops it. */
  function ApplyInOrder(filters: seq<Filter>, t: Table): Result<Table, TableError>
    decreases filters, 0
  {
    if filters == [] then Ok(t)
    else
      match Apply(filters[0], t)
      case Err(e) => Err(e)
      case Ok(next) => ApplyInOrder(filters[1..], next)
  }

  /** `CompositeFilter(filters).filter(df)`: the loop that rebinds `processed_df`. */
  method CompositeFilter(filters: seq<Filter>, df: Table) returns (r: Result<Table, TableError>)
    ensures r == ApplyInOrder(filters, df)
  {
    var processed := df;
    for i := 0 to |filters|
      invariant ApplyInOrder(filters[i..], processed) == ApplyInOrder(filters, df)
    {
      assert filters[i..][1..] == filters[i + 1..];
      var step := Apply(filters[i], processed);
      if step.Err? {
        return Err(step.error);
      }
      processed := step.value;
    }
    return Ok(processed);
  }

  /** Composing two filter lists is running the first, then the second on its output. */
  lemma {:induction false} ApplyInOrderAppend(a: seq<Filter>, b: seq<Filter>, t: Table)
    ensures ApplyInOrder(a + b, t) ==
              match ApplyInOrder(a, t)
              case Err(e) => Err(e)
              case Ok(mid) => ApplyInOrder(b, mid)
  {
    if a == [] {
      assert a + b == b;
    } else {
      assert (a + b)[0] == a[0];
      assert (a + b)[1..] == a[1..] + b;
      match Apply(a[0], t)
      case Err(e) =>
      case Ok(next) => ApplyInOrderAppend(a[1..], b, next);
    }
  }

  /** A composite of one filter behaves as that filter. */
  lemma ApplyInOrderSingle(f: Filter, t: Table)
    ensures ApplyInOrder([f], t) == Apply(f, t)
  {
    assert [f][1..] == [];
  }

  predicate IsRowFilter(f: Filter)
  {
    f.Keyword? || f.City? || f.Meteo?
  }

  lemma {:induction false} SubsequenceTransitive<T>(a: seq<T>, b: seq<T>, c: seq<T>)
    requires IsSubsequence(a, b) && IsSubsequence(b, c)
    ensures IsSubsequence(a, c)
    decreases |c|
  {
    if a == [] || c == [] {
    } else if b[0] == c[0] {
      if a[0] == b[0] {
        SubsequenceTransitive(a[1..], b[1..], c[1..]);
      } else {
        SubsequenceTransitive(a, b[1..], c[1..]);
      }
    } else {
      SubsequenceTransitive(a, b, c[1..]);
      SubsequenceExtend(a, c);
    }
  }

  /** Dropping the first element of a subsequence keeps it a subsequence. */
  lemma {:induction false} SubsequenceDropFirst<T>(a: seq<T>, x: seq<T>)
    requires a != [] && IsSubsequence(a, x)
    ensures IsSubsequence(a[1..], x)
    decreases |x|, 1
  {
    if a[0] == x[0] {
      SubsequenceExtend(a[1..], x);
    } else {
      SubsequenceDropFirst(a, x[1..]);
      SubsequenceExtend(a[1..], x);
    }
  }

  /** A subsequence of the tail is a subsequence of the whole. */
  lemma {:induction false} SubsequenceExtend<T>(y: seq<T>, x: seq<T>)
    requires x != [] && IsSubsequence(y, x[1..])
    ensures IsSubsequence(y, x)
    decreases |x|, 0
  {
    if y != [] && y[0] == x[0] {
      SubsequenceDropFirst(y, x[1..]);
    }
  }

  lemma {:induction false} SubsequenceReflexive<T>(a: seq<T>)
    ensures IsSubsequence(a, a)
  {
    if a != [] {
      SubsequenceReflexive(a[1..]);
    }
  }

  /** A chain of row filters keeps the columns and only ever drops rows, in order. */
  lemma {:induction false} RowFiltersOnlyDropRows(filters: seq<Filter>, t: Table)
    requires forall i :: 0 <= i < |filters| ==> IsRowFilter(filters[i])
    ensures ApplyInOrder(filters, t).Ok? ==>
              ApplyInOrder(filters, t).value.columns == t.columns
              && IsSubsequence(ApplyInOrder(filters, t).value.rows, t.rows)
  {
    if filters == [] {
      SubsequenceReflexive(t.rows);
    } else {
      match Apply(filters[0], t)
      case Err(e) =>
      case Ok(next) =>
        assert IsRowFilter(filters[0]);
        assert next.columns == t.columns && IsSubsequence(next.rows, t.rows);
        RowFiltersOnlyDropRows(filters[1..], next);
        if ApplyInOrder(filters, t).Ok? {
          SubsequenceTransitive(ApplyInOrder(filters, t).value.rows, next.rows, t.rows);
        }
    }
  }
}
