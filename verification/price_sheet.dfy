/**
 * The hourly price column of the market report, read as
 * `read_excel(skiprows=6, nrows=24, usecols="B")` reads it from a sheet that
 * has already been decoded into rows of cells.
 */
module PriceSheet {

  /** A decoded spreadsheet cell; an empty cell reads as NaN. */
  datatype Cell = Number(value: real) | Blank | Text(text: string)

  type Grid = seq<seq<Cell>>

  const HeaderRows := 6
  const HourRows := 24
  const PriceColumn := 1  // column B

  /** Column B of a row; a row that stops before it gives an empty cell. */
  function ColumnB(row: seq<Cell>): Cell {
    if |row| > PriceColumn then row[PriceColumn] else Blank
  }

  /** Column B of at most `limit` rows, in row order. */
  function TakeColumn(rows: seq<seq<Cell>>, limit: nat): (column: seq<Cell>)
    ensures |column| == if |rows| < limit then |rows| else limit
    ensures forall i :: 0 <= i < |column| ==> column[i] == ColumnB(rows[i])
  {
    if rows == [] || limit == 0 then []
    else [ColumnB(rows[0])] + TakeColumn(rows[1..], limit - 1)
  }

  /** `process_xls`: skip six header rows, then column B of up to 24 rows. */
  function ProcessXls(grid: Grid): (values: seq<Cell>)
    ensures |values| <= HourRows
    ensures |values| == if |grid| <= HeaderRows then 0
                        else if |grid| - HeaderRows < HourRows then |grid| - HeaderRows
                        else HourRows
    ensures forall i :: 0 <= i < |values| ==> values[i] == ColumnB(grid[HeaderRows + i])
  {
    if |grid| <= HeaderRows then [] else TakeColumn(grid[HeaderRows..], HourRows)
  }
}
