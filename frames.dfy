/** The observation table: a pandas DataFrame of daily weather records with a
    date index (`time`) and named measurement columns, any cell of which may
    be missing (NaN). */
module Frames {
  import opened Wrappers
  import opened Calendar

  /** A cell's value. Numbers stand for the measured floats, which the model
      treats as opaque; text is what `fillna` writes when it is given a string. */
  datatype Value = Num(n: int) | Text(s: string)

  /** A cell: None is a missing value (NaN). */
  type Cell = Option<Value>

  /** One daily record: its index date and its cells, by column name. */
  datatype Row = Row(date: Date, cells: map<string, Cell>)

  /** The columns in their order and the rows in index order. */
  datatype Frame = Frame(columns: seq<string>, rows: seq<Row>)

  /** The exceptions the core raises. */
  datatype Error = ValueError(message: string) | KeyError(key: string)

  /** Column names are distinct and every row has a cell in every column,
      as in every DataFrame. */
  predicate WellFormed(f: Frame) {
    && Distinct(f.columns)
    && (forall i :: 0 <= i < |f.rows| ==> f.rows[i].cells.Keys == ColumnSet(f.columns))
  }

  predicate Distinct(names: seq<string>) {
    forall i, j :: 0 <= i < j < |names| ==> names[i] != names[j]
  }

  function ColumnSet(columns: seq<string>): set<string> {
    set c | c in columns
  }

  /** The cell of a row in column c; a row without that column reads as missing. */
  function CellAt(cells: map<string, Cell>, c: string): Cell {
    if c in cells then cells[c] else None
  }

  predicate IsMissing(r: Row, c: string) {
    CellAt(r.cells, c).None?
  }
}
