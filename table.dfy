/** A pandas DataFrame as the predictor reads it: named columns and, per row, one cell
    per column. */
module Table {
  import opened Text
  import opened Sorting

  /** A cell: a number, pandas' missing marker, or a value that is not a number (text or a
      timestamp), which scikit-learn refuses as a feature. */
  datatype Cell = Num(x: real) | NA | NonNumeric

  /** The column names of a frame and its rows, each a map from column name to cell. */
  datatype Frame = Frame(columns: set<string>, rows: seq<map<string, Cell>>) {
    /** Every row has a cell for every column and nothing else. */
    predicate WellFormed() {
      forall i :: 0 <= i < |rows| ==> rows[i].Keys == columns
    }
  }

  /** The requested labels that `columns` lacks, each once, in order of first request. */
  function MissingLabels(columns: seq<string>, wanted: seq<string>): (ms: seq<string>)
    ensures forall c :: c in ms <==> c in wanted && c !in columns
  {
    Distinct(Filter(wanted, (c: string) => c !in columns))
  }

  /** pandas' `KeyError` message for labels a lookup by name does not find. */
  function NotInIndex(labels: seq<string>): string {
    ListRepr(labels) + " not in index"
  }
}
