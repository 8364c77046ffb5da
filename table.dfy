/** The in-memory table a `Transform` works on: a pandas data frame reduced to
    its column labels (in order, duplicates allowed) and its rows of cells. */
module Table {

  /** A cell value. Cells are either text or integers; the `ID` column holds integers. */
  datatype Cell = Text(text: string) | Int(value: int)

  /** A data frame: a header of column labels and a sequence of rows. */
  datatype Frame = Frame(header: seq<string>, rows: seq<seq<Cell>>)

  /** Every row has exactly one cell per column label. */
  predicate WellFormed(f: Frame)
  {
    forall i :: 0 <= i < |f.rows| ==> |f.rows[i]| == |f.header|
  }

  /** The cells of column `c`, top to bottom. */
  function Column(f: Frame, c: nat): (col: seq<Cell>)
    requires WellFormed(f) && c < |f.header|
    ensures |col| == |f.rows|
    ensures forall i :: 0 <= i < |f.rows| ==> col[i] == f.rows[i][c]
  {
    seq(|f.rows|, i requires 0 <= i < |f.rows| => f.rows[i][c])
  }
}
