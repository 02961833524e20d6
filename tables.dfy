/** The shape of a sheet once pandas has read it: named columns over rows of cells. */
module Tables {

  /** A data frame: the column names in order and the rows in order, each a list of cells. */
  datatype Table<T> = Table(columns: seq<string>, rows: seq<seq<T>>)

  /** Every row has exactly one cell per column, as in every pandas data frame. */
  predicate WellFormed<T>(t: Table<T>)
  {
    forall r :: 0 <= r < |t.rows| ==> |t.rows[r]| == |t.columns|
  }

  /** No name occurs twice: the grid widget refuses a frame whose column names repeat. */
  predicate Distinct(names: seq<string>)
  {
    forall i, j :: 0 <= i < j < |names| ==> names[i] != names[j]
  }
}
