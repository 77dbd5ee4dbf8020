/** `limpiarDatos`: every '$' and ',' is removed from each price and the rest
    is converted to a number; every other column is left alone. */
module Cleaning {
  import opened Results
  import opened Decimals
  import opened Tables
  import Text

  /** The characters of the pattern `[\$,]`. */
  predicate IsSymbol(c: char) {
    c == '$' || c == ','
  }

  /** The regex replacement of `[\$,]` by the empty string. */
  function RemoveSymbols(s: string): (r: string)
    ensures forall i :: 0 <= i < |r| ==> !IsSymbol(r[i])
    ensures |r| <= |s|
  {
    if s == [] then []
    else
      var rest := RemoveSymbols(s[1..]);
      if IsSymbol(s[0]) then rest else [s[0]] + rest
  }

  /** Every character other than '$' and ',' survives as often as it occurred. */
  lemma {:induction false} RemoveSymbolsKeepsOthers(s: string, c: char)
    requires !IsSymbol(c)
    ensures multiset(RemoveSymbols(s))[c] == multiset(s)[c]
    decreases |s|
  {
    if s != [] {
      RemoveSymbolsKeepsOthers(s[1..], c);
      assert s == [s[0]] + s[1..];
    }
  }

  /** Removal works character by character, so the kept characters stay in
      their original order. */
  lemma {:induction false} RemoveSymbolsConcat(a: string, b: string)
    ensures RemoveSymbols(a + b) == RemoveSymbols(a) + RemoveSymbols(b)
    decreases |a|
  {
    if a != [] {
      assert (a + b)[1..] == a[1..] + b;
      RemoveSymbolsConcat(a[1..], b);
    } else {
      assert a + b == b;
    }
  }

  /** Text without '$' or ',' is left exactly as it was. */
  lemma {:induction false} RemoveSymbolsPlain(s: string)
    requires forall i :: 0 <= i < |s| ==> !IsSymbol(s[i])
    ensures RemoveSymbols(s) == s
    decreases |s|
  {
    if s != [] {
      RemoveSymbolsPlain(s[1..]);
      assert s == [s[0]] + s[1..];
    }
  }

  lemma RemoveSymbolsIdempotent(s: string)
    ensures RemoveSymbols(RemoveSymbols(s)) == RemoveSymbols(s)
  {
    RemoveSymbolsPlain(RemoveSymbols(s));
  }

  /** Cleaning one price cell: text is stripped of symbols and converted;
      numbers and missing values pass through unchanged, as `astype(float)`
      leaves NaN in place. */
  function CleanCell(c: Cell): (r: Result<Cell>)
    ensures r.Ok? ==> !r.value.Str?
    ensures !c.Str? ==> r == Ok(c)
    ensures c.Str? ==> (r.Ok? <==> ParseFloat(RemoveSymbols(c.text)).Ok?)
    ensures c.Str? && r.Ok? ==> r.value == Num(ParseFloat(RemoveSymbols(c.text)).value)
    ensures r.Err? ==> r.error.NotNumeric?
  {
    match c
    case Str(s) =>
      var p := ParseFloat(RemoveSymbols(s));
      if p.Ok? then Ok(Num(p.value)) else Err(p.error)
    case _ => Ok(c)
  }

  /** `column.astype(...)`-style conversion of one column: every row's cell
      in that column converted in order; the first failure aborts. */
  function ConvertColumn(rows: seq<Row>, column: string, convert: Cell -> Result<Cell>): (r: Result<seq<Row>>)
    requires forall i :: 0 <= i < |rows| ==> column in rows[i]
    ensures r.Ok? <==> forall i :: 0 <= i < |rows| ==> convert(rows[i][column]).Ok?
    ensures r.Ok? ==> |r.value| == |rows|
    ensures r.Ok? ==> forall i :: 0 <= i < |rows| ==>
      r.value[i] == rows[i][column := convert(rows[i][column]).value]
    ensures r.Err? ==> exists i :: (0 <= i < |rows| && convert(rows[i][column]) == Err(r.error)
      && forall j :: 0 <= j < i ==> convert(rows[j][column]).Ok?)
  {
    if rows == [] then Ok([])
    else
      var head := convert(rows[0][column]);
      if head.Err? then Err(head.error)
      else
        var tail := ConvertColumn(rows[1..], column, convert);
        if tail.Err? then
          assert forall i :: 1 <= i < |rows| ==> rows[1..][i - 1] == rows[i];
          Err(tail.error)
        else
          Ok([rows[0][column := head.value]] + tail.value)
  }

  /** The price cells of the rows, cleaned in order; the first failure aborts. */
  function CleanRows(rows: seq<Row>): (r: Result<seq<Row>>)
    requires forall i :: 0 <= i < |rows| ==> PriceColumn in rows[i]
    ensures r.Ok? <==> forall i :: 0 <= i < |rows| ==> CleanCell(rows[i][PriceColumn]).Ok?
    ensures r.Ok? ==> |r.value| == |rows|
    ensures r.Ok? ==> forall i :: 0 <= i < |rows| ==>
      r.value[i] == rows[i][PriceColumn := CleanCell(rows[i][PriceColumn]).value]
    ensures r.Err? ==> exists i :: (0 <= i < |rows| && CleanCell(rows[i][PriceColumn]) == Err(r.error)
      && forall j :: 0 <= j < i ==> CleanCell(rows[j][PriceColumn]).Ok?)
  {
    ConvertColumn(rows, PriceColumn, CleanCell)
  }

  /** `limpiarDatos`: the table with its price column converted, or the
      error of the first price that is not a number. */
  function Clean(t: Table): (r: Result<Table>)
    requires WellFormed(t)
    ensures PriceColumn !in t.columns ==> r == Err(MissingColumn(PriceColumn))
    ensures r.Ok? ==> r.value.columns == t.columns && |r.value.rows| == |t.rows|
    ensures r.Err? && PriceColumn in t.columns ==> r.error.NotNumeric?
    ensures PriceColumn in t.columns ==>
      (r.Ok? <==> forall i :: 0 <= i < |t.rows| ==> CleanCell(t.rows[i][PriceColumn]).Ok?)
  {
    if PriceColumn !in t.columns then Err(MissingColumn(PriceColumn))
    else
      var rows := CleanRows(t.rows);
      if rows.Ok? then Ok(Table(t.columns, rows.value)) else Err(rows.error)
  }

  /** Cleaning touches only the price column: row count, row order and every
      other cell stay as they were, and each price becomes a number (or stays
      missing). */
  lemma CleanOnlyTouchesPrice(t: Table)
    requires WellFormed(t) && Clean(t).Ok?
    ensures WellFormed(Clean(t).value)
    ensures forall i, k :: 0 <= i < |t.rows| && k in t.rows[i] && k != PriceColumn ==>
      Clean(t).value.rows[i][k] == t.rows[i][k]
    ensures forall i :: 0 <= i < |t.rows| ==>
      Clean(t).value.rows[i][PriceColumn] == CleanCell(t.rows[i][PriceColumn]).value
    ensures forall i :: 0 <= i < |t.rows| ==> !Clean(t).value.rows[i][PriceColumn].Str?
  {
  }

  /** A table is cleaned exactly when every price cleans: a price that is not
      a number fails the whole stage rather than dropping its row. */
  lemma CleanFailsOnBadPrice(t: Table, i: nat)
    requires WellFormed(t) && PriceColumn in t.columns
    requires i < |t.rows| && CleanCell(t.rows[i][PriceColumn]).Err?
    ensures Clean(t).Err?
  {
  }

  /** Cleaning an already cleaned table changes nothing: running the stage
      again on its own output reproduces it. */
  lemma CleanIdempotent(t: Table)
    requires WellFormed(t) && Clean(t).Ok?
    ensures WellFormed(Clean(t).value)
    ensures Clean(Clean(t).value) == Clean(t)
  {
    CleanOnlyTouchesPrice(t);
    var c := Clean(t).value;
    var again := CleanRows(c.rows);
    assert again.Ok?;
    assert forall i :: 0 <= i < |c.rows| ==> again.value[i] == c.rows[i];
    assert again.value == c.rows;
  }
}
