/** The forward-return stage, `calculate_future_returns`. */
module Returns {
  import opened Columns
  import opened Table

  /** The horizons the stage uses when its caller names none. */
  const DefaultPeriods: seq<int> := [3, 20, 60]

  /** `(Close.shift(-h) - Close) / Close`: the relative change from this
      row's Close to the Close h rows later.  A row whose partner row lies
      outside the table is missing; for h > 0 those are the last h rows. */
  function ForwardReturn(close: seq<real>, h: int): (r: Column)
    requires Positive(close)
    ensures |r| == |close|
    ensures forall i :: 0 <= i < |close| ==> (r[i].Some? <==> 0 <= i + h < |close|)
    ensures forall i :: 0 <= i < |close| && 0 <= i + h < |close| ==>
              r[i].value == (close[i + h] - close[i]) / close[i]
  {
    var c := Lift(close);
    Combine(Combine(Shift(c, -h), c, Minus), c, Over)
  }

  /** For a non-negative horizon h, exactly the last h rows have no return. */
  lemma TailMissing(close: seq<real>, h: nat, i: int)
    requires Positive(close) && 0 <= i < |close|
    ensures ForwardReturn(close, h)[i] == None <==> i >= |close| - h
  {
  }

  /** The columns `Return_{h}d` the stage writes for the horizons `periods`,
      one per distinct horizon (writing a horizon a second time rewrites the
      same column with the same values). */
  function ReturnColumns(close: seq<real>, periods: seq<int>): (m: map<Label, Series>)
    requires Positive(close)
    ensures forall l :: l in m <==> l.Return? && l.h in periods
    ensures forall h :: h in periods ==> m[Return(h)] == Numeric(ForwardReturn(close, h))
    ensures Sized(m, |close|) && Typed(m)
    decreases |periods|
  {
    if periods == [] then map[]
    else
      var h := periods[|periods| - 1];
      ReturnColumns(close, periods[..|periods| - 1])[Return(h) := Numeric(ForwardReturn(close, h))]
  }

  /** The `Return_{h}d` columns for a prefix of `periods` and the next horizon
      give the columns for the longer prefix. */
  lemma ReturnColumnsStep(close: seq<real>, periods: seq<int>, k: nat)
    requires Positive(close) && k < |periods|
    ensures ReturnColumns(close, periods[..k + 1])
         == ReturnColumns(close, periods[..k])[Return(periods[k]) := Numeric(ForwardReturn(close, periods[k]))]
  {
    assert periods[..k + 1][..k] == periods[..k];
  }

  /** Once the stage has run on a table, every horizon's return column is in it. */
  lemma ReturnsWritten(base: map<Label, Series>, close: seq<real>, periods: seq<int>)
    requires Positive(close)
    ensures forall h :: h in periods ==>
      Return(h) in base + ReturnColumns(close, periods) &&
      (base + ReturnColumns(close, periods))[Return(h)] == Numeric(ForwardReturn(close, h))
  {
  }
}
