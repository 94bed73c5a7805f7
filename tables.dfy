/** An in-memory table: named columns, rows mapping a column name to a cell. */
module Tables {

  /** A pandas cell: null (NaN/None/NaT), a number, a string, or a date as a day number. */
  datatype Cell = Null | Num(x: real) | Text(s: string) | Day(d: int)

  type Row = map<string, Cell>

  /** `columns` in frame order; a row lacking a column holds null there. */
  datatype Table = Table(columns: seq<string>, rows: seq<Row>)

  function CellAt(r: Row, c: string): Cell {
    if c in r then r[c] else Null
  }
}
