/** `analizarDatos`'s ranking, `datos.nlargest(5, 'price')`: the rows with
    the largest prices, largest first, ties kept in row order. */
module Ranking {
  import opened Results
  import opened Decimals
  import opened Tables

  /** The sort key of a cleaned price; a missing price (NaN) ranks below
      every number, as nlargest puts NaN rows after all numeric ones. */
  datatype Key = NaN | Val(v: real)

  /** `a` ranks strictly below `b`. */
  predicate Below(a: Key, b: Key) {
    match (a, b)
    case (NaN, Val(_)) => true
    case (Val(x), Val(y)) => x < y
    case _ => false
  }

  predicate AtMost(a: Key, b: Key) {
    !Below(b, a)
  }

  function KeyOf(c: Cell): Key
    requires !c.Str?
  {
    if c.Missing? then NaN else Val(Value(c.number))
  }

  function Min(a: nat, b: nat): nat {
    if a <= b then a else b
  }

  /** Row `x` exists and has not been chosen yet. */
  predicate Free(keys: seq<Key>, taken: set<nat>, x: nat) {
    x < |keys| && x !in taken
  }

  /** The number of rows below `k` not chosen yet. */
  function FreeCount(taken: set<nat>, k: nat): nat {
    if k == 0 then 0 else FreeCount(taken, k - 1) + (if k - 1 in taken then 0 else 1)
  }

  /** The first row below `k` with the largest key among the rows not chosen
      yet, or -1 when every row below `k` has been chosen. */
  function Best(keys: seq<Key>, taken: set<nat>, k: nat): (b: int)
    requires k <= |keys|
    ensures -1 <= b < k
    ensures b == -1 <==> FreeCount(taken, k) == 0
    ensures b >= 0 ==> b !in taken
    ensures b == -1 ==> forall x: nat :: x < k ==> x in taken
    ensures b >= 0 ==> forall x: nat :: x < k && x !in taken ==> AtMost(keys[x], keys[b])
    ensures b >= 0 ==> forall x: nat :: x < b && x !in taken ==> Below(keys[x], keys[b])
  {
    if k == 0 then -1
    else
      var b := Best(keys, taken, k - 1);
      if k - 1 in taken then b
      else if b == -1 || Below(keys[b], keys[k - 1]) then k - 1
      else b
  }

  /** Choosing one more free row leaves one fewer free row. */
  lemma {:induction false} FreeCountTake(taken: set<nat>, k: nat, b: nat)
    requires b < k && b !in taken
    ensures FreeCount(taken + {b}, k) == FreeCount(taken, k) - 1
    decreases k
  {
    if b < k - 1 {
      FreeCountTake(taken, k - 1, b);
    } else {
      FreeCountUntouched(taken, k - 1, b);
    }
  }

  lemma {:induction false} FreeCountUntouched(taken: set<nat>, k: nat, b: nat)
    requires k <= b
    ensures FreeCount(taken + {b}, k) == FreeCount(taken, k)
    decreases k
  {
    if k > 0 {
      FreeCountUntouched(taken, k - 1, b);
    }
  }

  /** With nothing chosen, every row is free. */
  lemma {:induction false} FreeCountNone(k: nat)
    ensures FreeCount({}, k) == k
  {
    if k > 0 {
      FreeCountNone(k - 1);
    }
  }

  /** Repeatedly takes the first free row with the largest key. */
  function Select(keys: seq<Key>, taken: set<nat>, n: nat): (r: seq<nat>)
    ensures |r| == Min(n, FreeCount(taken, |keys|))
    ensures forall i :: 0 <= i < |r| ==> Free(keys, taken, r[i])
    ensures forall i, j :: 0 <= i < j < |r| ==> r[i] != r[j]
    decreases n
  {
    var b := Best(keys, taken, |keys|);
    if n == 0 || b < 0 then []
    else
      FreeCountTake(taken, |keys|, b);
      [b] + Select(keys, taken + {b}, n - 1)
  }

  /** Best first: no row ranks above an earlier one. */
  predicate Descending(keys: seq<Key>, r: seq<nat>)
    requires forall i :: 0 <= i < |r| ==> r[i] < |keys|
  {
    forall i, j :: 0 <= i < j < |r| ==> AtMost(keys[r[j]], keys[r[i]])
  }

  /** Rows with equal keys keep their original order. */
  predicate TiesInRowOrder(keys: seq<Key>, r: seq<nat>)
    requires forall i :: 0 <= i < |r| ==> r[i] < |keys|
  {
    forall i, j :: 0 <= i < j < |r| && keys[r[i]] == keys[r[j]] ==> r[i] < r[j]
  }

  /** Every free row left out ranks at most as high as every one chosen,
      and one tied with a chosen row is a later row (nlargest's keep='first'). */
  ghost predicate Dominates(keys: seq<Key>, taken: set<nat>, r: seq<nat>)
    requires forall i :: 0 <= i < |r| ==> r[i] < |keys|
  {
    forall x: nat, i :: Free(keys, taken, x) && x !in r && 0 <= i < |r| ==>
      AtMost(keys[x], keys[r[i]]) && (keys[x] == keys[r[i]] ==> r[i] < x)
  }

  /** The selection comes out best first, earlier rows first among equals. */
  lemma {:induction false} SelectDescending(keys: seq<Key>, taken: set<nat>, n: nat)
    ensures Descending(keys, Select(keys, taken, n))
    ensures TiesInRowOrder(keys, Select(keys, taken, n))
    decreases n
  {
    var r := Select(keys, taken, n);
    var b := Best(keys, taken, |keys|);
    if n == 0 || b < 0 {
      return;
    }
    var tail := Select(keys, taken + {b}, n - 1);
    assert r == [b] + tail;
    SelectDescending(keys, taken + {b}, n - 1);
    forall i, j | 0 <= i < j < |r|
      ensures AtMost(keys[r[j]], keys[r[i]])
      ensures keys[r[i]] == keys[r[j]] ==> r[i] < r[j]
    {
      assert r[j] == tail[j - 1];
      if i > 0 {
        assert r[i] == tail[i - 1];
      } else {
        assert Free(keys, taken + {b}, tail[j - 1]);
      }
    }
  }

  /** Nothing left out ranks above anything chosen, and a left-out row tied
      with a chosen one comes after it. */
  lemma {:induction false} SelectDominates(keys: seq<Key>, taken: set<nat>, n: nat)
    ensures Dominates(keys, taken, Select(keys, taken, n))
    decreases n
  {
    var r := Select(keys, taken, n);
    var b := Best(keys, taken, |keys|);
    if n == 0 || b < 0 {
      return;
    }
    var tail := Select(keys, taken + {b}, n - 1);
    assert r == [b] + tail;
    SelectDominates(keys, taken + {b}, n - 1);
    forall x: nat, i | Free(keys, taken, x) && x !in r && 0 <= i < |r|
      ensures AtMost(keys[x], keys[r[i]]) && (keys[x] == keys[r[i]] ==> r[i] < x)
    {
      assert x != b;
      if i > 0 {
        assert r[i] == tail[i - 1];
        assert Free(keys, taken + {b}, x) && x !in tail;
      }
    }
  }

  /** The sort keys of the price column, or the error nlargest raises: a
      KeyError without a price column, a TypeError for a text column. */
  function PriceKeys(t: Table): (r: Result<seq<Key>>)
    requires WellFormed(t)
    ensures PriceColumn !in t.columns ==> r == Err(MissingColumn(PriceColumn))
    ensures PriceColumn in t.columns ==>
      (r.Ok? <==> forall i :: 0 <= i < |t.rows| ==> !t.rows[i][PriceColumn].Str?)
    ensures r.Err? && PriceColumn in t.columns ==> r.error == NotNumericColumn(PriceColumn)
    ensures r.Ok? ==> |r.value| == |t.rows|
    ensures r.Ok? ==> forall i :: 0 <= i < |t.rows| ==>
      !t.rows[i][PriceColumn].Str? && r.value[i] == KeyOf(t.rows[i][PriceColumn])
  {
    if PriceColumn !in t.columns then Err(MissingColumn(PriceColumn))
    else if exists i :: 0 <= i < |t.rows| && t.rows[i][PriceColumn].Str? then
      Err(NotNumericColumn(PriceColumn))
    else
      Ok(seq(|t.rows|, i requires 0 <= i < |t.rows| => KeyOf(t.rows[i][PriceColumn])))
  }

  /** The row numbers `nlargest(n, 'price')` picks, best first. */
  function TopIndices(t: Table, n: nat): (r: Result<seq<nat>>)
    requires WellFormed(t)
    ensures r.Ok? <==> PriceKeys(t).Ok?
    ensures r.Err? ==> r.error == PriceKeys(t).error
    ensures r.Ok? ==> |r.value| == Min(n, |t.rows|)
    ensures r.Ok? ==> forall i :: 0 <= i < |r.value| ==> r.value[i] < |t.rows|
    ensures r.Ok? ==> forall i, j :: 0 <= i < j < |r.value| ==> r.value[i] != r.value[j]
    ensures r.Ok? ==> Descending(PriceKeys(t).value, r.value)
    ensures r.Ok? ==> TiesInRowOrder(PriceKeys(t).value, r.value)
    ensures r.Ok? ==> Dominates(PriceKeys(t).value, {}, r.value)
  {
    var keys :- PriceKeys(t);
    FreeCountNone(|keys|);
    SelectDescending(keys, {}, n);
    SelectDominates(keys, {}, n);
    Ok(Select(keys, {}, n))
  }

  /** `datos.nlargest(n, 'price')`: the chosen rows themselves. */
  function NLargest(t: Table, n: nat): (r: Result<seq<Row>>)
    requires WellFormed(t)
    ensures r.Ok? <==> TopIndices(t, n).Ok?
    ensures r.Ok? ==> |r.value| == |TopIndices(t, n).value|
    ensures r.Ok? ==> forall i :: 0 <= i < |r.value| ==> r.value[i] == t.rows[TopIndices(t, n).value[i]]
  {
    var order :- TopIndices(t, n);
    Ok(seq(|order|, i requires 0 <= i < |order| => t.rows[order[i]]))
  }

  /** The report `analizarDatos` prints besides the summary statistics: the
      five most expensive products. */
  function Analyze(t: Table): (r: Result<seq<Row>>)
    requires WellFormed(t)
    ensures r.Ok? <==> PriceKeys(t).Ok?
    ensures r.Ok? ==> |r.value| == Min(5, |t.rows|)
    ensures r.Ok? ==> forall i :: 0 <= i < |r.value| ==> r.value[i] == t.rows[TopIndices(t, 5).value[i]]
  {
    NLargest(t, 5)
  }

  /** Once the prices are numbers (or missing), the report cannot fail
      and shows five rows, or all rows when there are fewer. */
  lemma AnalyzeSucceeds(t: Table)
    requires WellFormed(t) && PriceColumn in t.columns
    requires forall i :: 0 <= i < |t.rows| ==> !t.rows[i][PriceColumn].Str?
    ensures Analyze(t).Ok?
    ensures |Analyze(t).value| == Min(5, |t.rows|)
  {
  }
}
