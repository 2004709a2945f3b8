/** Keeping the rows of the national EJScreen table that belong to one state
    (the District of Columbia by default). */
module Start {
  import opened Common
  import opened Frames

  const DefaultStateColumn := "ST_ABBREV"
  const DefaultStateValue := "DC"

  /** `df[df[column] == value]`: the rows whose `column` cell equals `value`,
      in their order; each comes from the input and holds the value. */
  function SelectRows(rows: seq<Row>, column: string, value: string): (r: seq<Row>)
    ensures |r| <= |rows|
    ensures forall row :: row in r ==> row in rows && column in row && row[column] == value
  {
    Filter(rows, ColumnEquals(column, value))
  }

  /** Checks that the input exists before reading it, checks the state column
      after reading, and keeps the rows of the requested state with all their
      columns. */
  function FilterDcData(inputPath: string, inputExists: bool, df: Table, stateColumn: string, stateValue: string): (r: Result<Table>)
    ensures !inputExists ==> r == Err(FileNotFoundError(inputPath))
    ensures inputExists && stateColumn !in df.columns ==> r == Err(KeyError(stateColumn))
    ensures r.Ok? <==> inputExists && stateColumn in df.columns
    ensures r.Ok? ==> r.value.columns == df.columns && r.value.rows == SelectRows(df.rows, stateColumn, stateValue)
  {
    if !inputExists then Err(FileNotFoundError(inputPath))
    else if stateColumn !in df.columns then Err(KeyError(stateColumn))
    else Ok(Table(df.columns, SelectRows(df.rows, stateColumn, stateValue)))
  }

  /** The filtered frame holds exactly the rows of the requested state: each
      kept row is one of the input's and has the state value, every such input
      row is kept, their order is the input's, and there are no more of them
      than input rows. The result is again a well-formed frame. */
  lemma FilterKeepsExactlyTheStateRows(inputPath: string, df: Table, stateColumn: string, stateValue: string)
    requires Valid(df) && stateColumn in df.columns
    ensures var r := FilterDcData(inputPath, true, df, stateColumn, stateValue);
      && r.Ok?
      && Valid(r.value)
      && (forall row :: row in r.value.rows ==> row in df.rows && row[stateColumn] == stateValue)
      && (forall i :: 0 <= i < |df.rows| && df.rows[i][stateColumn] == stateValue ==> df.rows[i] in r.value.rows)
      && IsSubsequence(r.value.rows, df.rows)
      && |r.value.rows| == CountWhere(df.rows, ColumnEquals(stateColumn, stateValue)) <= |df.rows|
  {
    var keep := ColumnEquals(stateColumn, stateValue);
    forall i | 0 <= i < |df.rows| && df.rows[i][stateColumn] == stateValue
      ensures df.rows[i] in Filter(df.rows, keep)
    {
      assert df.rows[i] in df.rows;
      FilterKeepsEveryMatch(df.rows, keep, i);
    }
    FilterIsSubsequence(df.rows, keep);
    FilterCount(df.rows, keep);
  }

  /** The filtered rows are the only in-order selection of the input that
      holds only rows of the state and misses none of them. */
  lemma FilterIsTheOrderedSelection(inputPath: string, df: Table, stateColumn: string, stateValue: string, kept: seq<Row>)
    requires IsSubsequence(kept, df.rows)
    requires forall row :: row in kept ==> stateColumn in row && row[stateColumn] == stateValue
    requires |kept| == CountWhere(df.rows, ColumnEquals(stateColumn, stateValue))
    ensures FilterDcData(inputPath, true, df, stateColumn, stateValue) == Ok(Table(df.columns, kept)) <==>
      stateColumn in df.columns
  {
    FilterUnique(df.rows, ColumnEquals(stateColumn, stateValue), kept);
  }

  /** Filtering the filtered frame again changes nothing. */
  lemma FilterIsIdempotent(inputPath: string, df: Table, stateColumn: string, stateValue: string)
    requires stateColumn in df.columns
    ensures var r := FilterDcData(inputPath, true, df, stateColumn, stateValue);
      r.Ok? && FilterDcData(inputPath, true, r.value, stateColumn, stateValue) == r
  {
    FilterIdempotent(df.rows, ColumnEquals(stateColumn, stateValue));
  }
}
