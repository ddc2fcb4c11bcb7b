/**
 * Writing the query result (main.go:164-212): a header record of column
 * names, then one record per row with one text cell per column, counting
 * the rows written. Output records are string sequences; the CSV encoding
 * of a record and the text form of a cell (`stringify`) belong to library
 * code outside this model.
 */
module Output {
  import opened Wrappers

  /** What the driver hands back: column names, the rows it delivers, and the errors it reports after iterating and on close. */
  datatype RowSet<V> = RowSet(
    columns: seq<string>,
    rows: seq<seq<V>>,
    iterationError: Option<string>,
    closeError: Option<string>)

  datatype EmitError =
    | ScanFailed(row: nat, expected: nat, actual: nat)
    | IterationFailed(reason: string)
    | CloseFailed(reason: string)

  /** The record written for one scanned row. */
  function Render<V>(values: seq<V>, stringify: V -> string): seq<string> {
    seq(|values|, j requires 0 <= j < |values| => stringify(values[j]))
  }

  /** Everything written for these rows: the header, then one rendered record per row. */
  function Records<V>(columns: seq<string>, rows: seq<seq<V>>, stringify: V -> string): seq<seq<string>> {
    [columns] + seq(|rows|, i requires 0 <= i < |rows| => Render(rows[i], stringify))
  }

  /** How many leading rows scan into `width` destinations: the rows before the first one of another width. */
  function ScannablePrefix<V>(width: nat, rows: seq<seq<V>>): (n: nat)
    ensures n <= |rows|
    ensures forall i :: 0 <= i < n ==> |rows[i]| == width
    ensures n < |rows| ==> |rows[n]| != width
  {
    if rows == [] || |rows[0]| != width then 0 else 1 + ScannablePrefix(width, rows[1..])
  }

  /** The error that ends the emission, if any: a row that does not scan, then the iteration error, then the close error. */
  function EmitFailure<V>(source: RowSet<V>): Option<EmitError> {
    var n := ScannablePrefix(|source.columns|, source.rows);
    if n < |source.rows| then
      Some(ScanFailed(n, |source.columns|, |source.rows[n]|))
    else if source.iterationError.Some? then
      Some(IterationFailed(source.iterationError.value))
    else if source.closeError.Some? then
      Some(CloseFailed(source.closeError.value))
    else
      None
  }

  /** Turns the scanned values of one row into the text cells of its record, one cell per value. */
  method RenderValues<V>(values: array<V>, stringify: V -> string) returns (cells: seq<string>)
    ensures |cells| == values.Length
    ensures forall j :: 0 <= j < values.Length ==> cells[j] == stringify(values[j])
  {
    var stringValues := new string[values.Length];
    for i := 0 to values.Length
      invariant forall j :: 0 <= j < i ==> stringValues[j] == stringify(values[j])
    {
      stringValues[i] := stringify(values[i]);
    }
    cells := stringValues[..];
  }

  /**
   * The emission loop: write the header, then scan, render and write each
   * row, counting it. A row that does not scan stops the loop with the rows
   * before it already written.
   */
  method EmitResults<V(0)>(source: RowSet<V>, stringify: V -> string)
    returns (records: seq<seq<string>>, rowCount: nat, err: Option<EmitError>)
    ensures rowCount == ScannablePrefix(|source.columns|, source.rows)
    ensures |records| == rowCount + 1 && records[0] == source.columns
    ensures forall k :: 1 <= k < |records| ==>
      |records[k]| == |source.columns|
      && forall j :: 0 <= j < |source.columns| ==> records[k][j] == stringify(source.rows[k - 1][j])
    ensures records == Records(source.columns, source.rows[..rowCount], stringify)
    ensures err == EmitFailure(source)
  {
    var columns := source.columns;
    records := [columns];

    var values := new V[|columns|];
    var pending := source.rows;
    rowCount := 0;
    while pending != []
      invariant rowCount + |pending| == |source.rows|
      invariant pending == source.rows[rowCount..]
      invariant forall i :: 0 <= i < rowCount ==> |source.rows[i]| == |columns|
      invariant records == Records(columns, source.rows[..rowCount], stringify)
      invariant values.Length == |columns|
    {
      var row := pending[0];
      pending := pending[1..];
      if |row| != |columns| {
        PrefixIsScannable(|columns|, source.rows, rowCount);
        return records, rowCount, Some(ScanFailed(rowCount, |columns|, |row|));
      }
      forall j | 0 <= j < values.Length {
        values[j] := row[j];
      }

      var stringValues := RenderValues(values, stringify);
      assert stringValues == Render(row, stringify);
      RecordsAppend(columns, source.rows[..rowCount], row, stringify);
      assert source.rows[..rowCount + 1] == source.rows[..rowCount] + [row];
      records := records + [stringValues];
      rowCount := rowCount + 1;
    }
    PrefixIsScannable(|columns|, source.rows, rowCount);

    if source.iterationError.Some? {
      return records, rowCount, Some(IterationFailed(source.iterationError.value));
    }
    if source.closeError.Some? {
      return records, rowCount, Some(CloseFailed(source.closeError.value));
    }
    return records, rowCount, None;
  }

  /** Writing one more row adds exactly its rendered record at the end. */
  lemma RecordsAppend<V>(columns: seq<string>, rows: seq<seq<V>>, row: seq<V>, stringify: V -> string)
    ensures Records(columns, rows + [row], stringify) == Records(columns, rows, stringify) + [Render(row, stringify)]
  {
  }

  /** The scannable prefix is the only length whose rows all scan and that ends at a row that does not, or at the end. */
  lemma PrefixIsScannable<V>(width: nat, rows: seq<seq<V>>, n: nat)
    requires n <= |rows|
    requires forall i :: 0 <= i < n ==> |rows[i]| == width
    requires n < |rows| ==> |rows[n]| != width
    ensures ScannablePrefix(width, rows) == n
  {
  }

  /**
   * Output shape: the header comes first, every data record has one cell per
   * column, each cell the text of the matching value, and there is one data
   * record per scanned row.
   */
  lemma RecordsShape<V>(columns: seq<string>, rows: seq<seq<V>>, stringify: V -> string)
    requires forall i :: 0 <= i < |rows| ==> |rows[i]| == |columns|
    ensures var out := Records(columns, rows, stringify);
      |out| == |rows| + 1 && out[0] == columns
      && forall k, j :: 1 <= k < |out| && 0 <= j < |columns| ==>
           |out[k]| == |columns| && out[k][j] == stringify(rows[k - 1][j])
  {
  }

  /** When every row scans and the driver reports no error, every delivered row is written and counted. */
  lemma CleanEmissionWritesAll<V>(source: RowSet<V>)
    requires forall i :: 0 <= i < |source.rows| ==> |source.rows[i]| == |source.columns|
    requires source.iterationError == None && source.closeError == None
    ensures ScannablePrefix(|source.columns|, source.rows) == |source.rows|
    ensures EmitFailure(source) == None
  {
  }
}
