/**
 * A pandas DataFrame as the filters and the extractor see it: an ordered
 * list of column names and an ordered list of rows, each row mapping column
 * names to a cell that is a string or null.
 */
module Tables {
  import opened Wrappers
  import Text

  type Cell = Option<string>
  type Row = map<string, Cell>

  datatype Table = Table(columns: seq<string>, rows: seq<Row>)

  /** The only exception the core raises itself: a `KeyError` for a column the table lacks. */
  datatype TableError = MissingColumn(column: string)

  /** `pd.DataFrame()`: no columns and no rows. */
  const EmptyTable := Table([], [])

  /** `df.empty`: true when either axis has length zero. */
  predicate IsEmpty(t: Table)
  {
    |t.rows| == 0 || |t.columns| == 0
  }

  predicate HasColumn(t: Table, column: string)
  {
    column in t.columns
  }

  /** The value of `column` in `row`; a cell the row does not carry reads as null. */
  function CellOf(row: Row, column: string): Cell
  {
    if column in row then row[column] else None
  }

  /** `Series.str.contains(needle, case=False, na=False)` on one cell. */
  predicate CellContains(row: Row, column: string, needle: string)
  {
    match CellOf(row, column)
    case None => false
    case Some(v) => Text.ContainsIgnoreCase(v, needle)
  }

  /** Order-preserving subsequence (greedy match). */
  predicate IsSubsequence<T(==)>(a: seq<T>, b: seq<T>)
    decreases |b|
  {
    if a == [] then true
    else if b == [] then false
    else if a[0] == b[0] then IsSubsequence(a[1..], b[1..])
    else IsSubsequence(a, b[1..])
  }

  /** `df[mask]` for a mask computed row by row: the rows satisfying `keep`, in order. */
  function Where(rows: seq<Row>, keep: Row -> bool): (r: seq<Row>)
    ensures |r| <= |rows|
    ensures forall x :: x in r <==> x in rows && keep(x)
    ensures IsSubsequence(r, rows)
    // every kept row as often as in the input, duplicates included
    ensures forall x :: multiset(r)[x] == if keep(x) then multiset(rows)[x] else 0
  {
    if rows == [] then []
    else
      var tail := Where(rows[1..], keep);
      assert rows == [rows[0]] + rows[1..];
      assert multiset(rows) == multiset{rows[0]} + multiset(rows[1..]);
      assert forall x :: x in rows <==> x == rows[0] || x in rows[1..];
      if keep(rows[0]) then
        assert ([rows[0]] + tail)[1..] == tail;
        assert multiset([rows[0]] + tail) == multiset{rows[0]} + multiset(tail);
        [rows[0]] + tail
      else tail
  }

  /** The non-null values of `column`, in row order (`df[column].dropna().tolist()`). */
  function NonNullValues(rows: seq<Row>, column: string): (r: seq<string>)
    ensures |r| <= |rows|
    ensures forall v :: v in r <==> exists i :: 0 <= i < |rows| && CellOf(rows[i], column) == Some(v)
  {
    if rows == [] then []
    else
      var tail := NonNullValues(rows[1..], column);
      assert forall i :: 0 < i < |rows| ==> rows[i] == rows[1..][i - 1];
      assert forall v :: (exists i :: 0 <= i < |rows[1..]| && CellOf(rows[1..][i], column) == Some(v))
                          ==> (exists i :: 0 <= i < |rows| && CellOf(rows[i], column) == Some(v));
      match CellOf(rows[0], column)
      case None => tail
      case Some(v) => [v] + tail
  }

  /**
   * The indices, from `from` on, of the rows whose `column` cell is not
   * null, in ascending order.
   */
  function NonNullIndices(rows: seq<Row>, column: string, from: nat): (idx: seq<nat>)
    requires from <= |rows|
    ensures forall j :: 0 <= j < |idx| ==> from <= idx[j] < |rows| && CellOf(rows[idx[j]], column).Some?
    ensures forall j, k :: 0 <= j < k < |idx| ==> idx[j] < idx[k]
    ensures forall i :: from <= i < |rows| && CellOf(rows[i], column).Some? ==> i in idx
    decreases |rows| - from
  {
    if from == |rows| then []
    else if CellOf(rows[from], column).Some? then [from] + NonNullIndices(rows, column, from + 1)
    else NonNullIndices(rows, column, from + 1)
  }

  /**
   * `dropna().tolist()` keeps exactly the non-null cells, in row order and
   * with duplicates: its j-th value is the cell of the j-th non-null row.
   */
  lemma {:induction false} NonNullValuesInRowOrder(rows: seq<Row>, column: string, from: nat)
    requires from <= |rows|
    ensures |NonNullValues(rows[from..], column)| == |NonNullIndices(rows, column, from)|
    ensures forall j :: 0 <= j < |NonNullIndices(rows, column, from)| ==>
              CellOf(rows[NonNullIndices(rows, column, from)[j]], column) == Some(NonNullValues(rows[from..], column)[j])
    decreases |rows| - from
  {
    if from < |rows| {
      NonNullValuesInRowOrder(rows, column, from + 1);
      var idx, idx' := NonNullIndices(rows, column, from), NonNullIndices(rows, column, from + 1);
      var vs, vs' := NonNullValues(rows[from..], column), NonNullValues(rows[from + 1..], column);
      assert rows[from..][1..] == rows[from + 1..];
      assert vs == if CellOf(rows[from], column).Some? then [CellOf(rows[from], column).value] + vs' else vs';
      if CellOf(rows[from], column).Some? {
        assert idx == [from] + idx';
        forall j | 0 <= j < |idx|
          ensures CellOf(rows[idx[j]], column) == Some(vs[j])
        {
          if j > 0 {
            assert idx[j] == idx'[j - 1] && vs[j] == vs'[j - 1];
          }
        }
      } else {
        assert idx == idx' && vs == vs';
      }
    }
  }

  /** Splitting the rows splits the values: the result is the concatenation of each row's value, if any. */
  lemma {:induction false} NonNullValuesAppend(a: seq<Row>, b: seq<Row>, column: string)
    ensures NonNullValues(a + b, column) == NonNullValues(a, column) + NonNullValues(b, column)
  {
    if a == [] {
      assert a + b == b;
    } else {
      assert (a + b)[0] == a[0];
      assert (a + b)[1..] == a[1..] + b;
      NonNullValuesAppend(a[1..], b, column);
    }
  }
}
