/** The in-memory tabular dataset (a pandas DataFrame) the analysis stage
    works on: named columns and rows of cells. */
module Tables {
  import opened Decimals

  /** One cell: text as scraped, a number once cleaned, or a missing value
      (pandas reads an empty CSV field as NaN). */
  datatype Cell = Str(text: string) | Num(number: Decimal) | Missing

  /** A row maps each column name to its cell. */
  type Row = map<string, Cell>

  datatype Table = Table(columns: seq<string>, rows: seq<Row>)

  const PriceColumn: string := "price"

  predicate DistinctColumns(columns: seq<string>) {
    forall i, j :: 0 <= i < j < |columns| ==> columns[i] != columns[j]
  }

  /** Every row has exactly the table's columns, and no column name repeats. */
  predicate WellFormed(t: Table) {
    && DistinctColumns(t.columns)
    && forall i :: 0 <= i < |t.rows| ==> t.rows[i].Keys == set c | c in t.columns
  }

  /** The tables a DataFrame can actually be: the well-formed ones. */
  type Frame = t: Table | WellFormed(t) witness Table([], [])
}
