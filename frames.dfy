/** Tabular data as both the CSV reader and the shapefile reader hand it over:
    named columns and rows of already-stringified cell values. */
module Frames {

  /** One row: column name to cell text. */
  type Row = map<string, string>

  /** A data frame: its column names and its rows, in order. */
  datatype Table = Table(columns: set<string>, rows: seq<Row>)

  /** Every row has a cell for exactly the frame's columns. */
  predicate Valid(t: Table)
  {
    forall r :: r in t.rows ==> r.Keys == t.columns
  }

  /** The boolean mask `df[column] == value` as a test on one row. */
  function ColumnEquals(column: string, value: string): Row -> bool
  {
    r => column in r && r[column] == value
  }
}
