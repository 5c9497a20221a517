/** Cells, grids and the outcome types shared by the whole pipeline. */
module Tables {

  datatype Option<T> = None | Some(value: T)

  /** One spreadsheet cell. A present value is carried as its `str()`
      rendering; the model never looks inside a death count. */
  datatype Cell = Missing | Present(text: string)

  /** A sheet read without header interpretation: a list of rows. */
  type Grid = seq<seq<Cell>>

  /** Why a file contributed no records. */
  datatype Failure =
    | ReadFailure          // the spreadsheet could not be read at all
    | RowOutOfBounds       // the header scan indexed a row the sheet does not have
    | MissingIdColumn      // no column name holds "Code"/"code" or none holds "Label"/"label"
    | IdColumnsCoincide    // one column was picked for both ids, so "nuts" vanishes in the rename
    | DuplicateIdColumn    // an id column's name is carried by another column too, so melt meets two id columns of one name

  datatype Result<T> = Ok(value: T) | Err(failure: Failure)

  /** The text pandas gives a cell under `astype(str)`: NaN becomes "nan". */
  function Render(c: Cell): string
  {
    match c
    case Missing => "nan"
    case Present(t) => t
  }

  /** Column `j` of a row; a row shorter than the table reads as missing there,
      as pandas pads short rows with NaN. */
  function At(row: seq<Cell>, j: nat): Cell
  {
    if j < |row| then row[j] else Missing
  }
}
