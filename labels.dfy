/** The event-labelling stage, `mark_significant_changes`.

    For each horizon the stage compares `Return_{h}d` with the threshold.  A
    missing return compares as false, as NaN does in pandas, so a row whose
    return is missing gets false for both of its labels.
 */
module Labels {
  import opened Columns
  import opened Table
  import Returns

  /** The threshold the stage uses when its caller names none. */
  const DefaultThreshold: real := 0.05

  /** The horizons the stage labels, in the order it labels them. */
  const LabelledHorizons: seq<int> := [3, 20, 60]

  /** The column under a label of a horizon, from that horizon's returns:
      `Return_{h}d > threshold` for a rise, `Return_{h}d < -threshold` for a drop. */
  function LabelColumn(l: Label, ret: Column, threshold: real): Series
    requires l.IsFlag()
  {
    if l.SignificantRise? then Boolean(Greater(ret, threshold)) else Boolean(Less(ret, -threshold))
  }

  /** `Significant_Rise_{h}d` and `Significant_Drop_{h}d` for one horizon.
      The column `Return_{h}d` must already be in the table; otherwise the
      lookup fails (pandas raises KeyError) and the table is left as it was. */
  function MarkOne(columns: map<Label, Series>, h: int, threshold: real): (r: (map<Label, Series>, bool))
    requires Typed(columns)
    ensures Typed(r.0)
    ensures r.1 <==> Return(h) in columns
  {
    if Return(h) !in columns then (columns, false)
    else
      var ret := columns[Return(h)].values;
      (columns[SignificantRise(h) := LabelColumn(SignificantRise(h), ret, threshold)]
               [SignificantDrop(h) := LabelColumn(SignificantDrop(h), ret, threshold)], true)
  }

  /** The horizons `hs` labelled one after the other; the first missing
      `Return_{h}d` stops the stage, keeping the labels written before it. */
  function MarkHorizons(columns: map<Label, Series>, hs: seq<int>, threshold: real)
    : (r: (map<Label, Series>, bool))
    requires Typed(columns)
    ensures Typed(r.0)
    decreases |hs|
  {
    if hs == [] then (columns, true)
    else
      var step := MarkOne(columns, hs[0], threshold);
      if !step.1 then step else MarkHorizons(step.0, hs[1..], threshold)
  }

  /** Labelling the horizons `hs` succeeds exactly when every `Return_{h}d`
      is in the table. */
  lemma {:induction false} MarkHorizonsSucceeds(columns: map<Label, Series>, hs: seq<int>, threshold: real)
    requires Typed(columns)
    ensures MarkHorizons(columns, hs, threshold).1 <==> forall k :: 0 <= k < |hs| ==> Return(hs[k]) in columns
    decreases |hs|
  {
    if hs != [] {
      var step := MarkOne(columns, hs[0], threshold);
      if step.1 {
        MarkHorizonsSucceeds(step.0, hs[1..], threshold);
        assert forall k :: 1 <= k < |hs| ==> hs[k] == hs[1..][k - 1];
        assert forall k :: 0 <= k < |hs[1..]| ==> hs[1..][k] == hs[k + 1];
      }
    }
  }

  /** Labelling never changes or adds a numeric column, nor a label of a
      horizon outside `hs`; every label column it leaves is either one the
      table had or the one computed from its horizon's return column. */
  lemma {:induction false} MarkHorizonsFrame(columns: map<Label, Series>, hs: seq<int>, threshold: real)
    requires Typed(columns)
    ensures var m := MarkHorizons(columns, hs, threshold).0;
      && (forall l :: l in columns ==> l in m)
      && (forall l :: l in columns && (!l.IsFlag() || l.h !in hs) ==> m[l] == columns[l])
      && (forall l :: l in m ==> l in columns || (l.IsFlag() && l.h in hs))
      && (forall l :: l in m && l.IsFlag() ==>
            (l in columns && m[l] == columns[l]) ||
            (Return(l.h) in columns && m[l] == LabelColumn(l, columns[Return(l.h)].values, threshold)))
    decreases |hs|
  {
    if hs != [] {
      var step := MarkOne(columns, hs[0], threshold);
      if step.1 {
        MarkOneFrame(columns, hs[0], threshold);
        MarkHorizonsFrame(step.0, hs[1..], threshold);
      }
    }
  }

  /** One horizon's step of `MarkHorizonsFrame`: it keeps every key, changes
      only the two labels of its horizon, and writes those from its returns. */
  lemma MarkOneFrame(columns: map<Label, Series>, h: int, threshold: real)
    requires Typed(columns)
    ensures var m := MarkOne(columns, h, threshold).0;
      && (forall l :: l in columns ==> l in m)
      && (forall l :: l in columns && (!l.IsFlag() || l.h != h) ==> m[l] == columns[l])
      && (forall l :: l in m ==> l in columns || (l.IsFlag() && l.h == h))
      && (forall l :: l in m && l.IsFlag() && l.h == h && l !in columns ==>
            Return(h) in columns && m[l] == LabelColumn(l, columns[Return(h)].values, threshold))
      && (forall l :: l in m && l.IsFlag() && l.h == h && Return(h) in columns ==>
            m[l] == LabelColumn(l, columns[Return(h)].values, threshold))
  {
  }

  /** Each horizon reached without an earlier failure gets its two label
      columns, computed from its return column with the threshold. */
  lemma {:induction false} MarkHorizonsLabels(columns: map<Label, Series>, hs: seq<int>, threshold: real, k: int)
    requires Typed(columns) && 0 <= k < |hs|
    requires forall j :: 0 <= j <= k ==> Return(hs[j]) in columns
    ensures var m := MarkHorizons(columns, hs, threshold).0;
      && SignificantRise(hs[k]) in m && SignificantDrop(hs[k]) in m
      && m[SignificantRise(hs[k])] == LabelColumn(SignificantRise(hs[k]), columns[Return(hs[k])].values, threshold)
      && m[SignificantDrop(hs[k])] == LabelColumn(SignificantDrop(hs[k]), columns[Return(hs[k])].values, threshold)
    decreases |hs|
  {
    assert Return(hs[0]) in columns;
    if k == 0 {
      FirstHorizonLabels(columns, hs, threshold);
    } else {
      var step := MarkOne(columns, hs[0], threshold);
      assert MarkHorizons(columns, hs, threshold) == MarkHorizons(step.0, hs[1..], threshold);
      forall j | 0 <= j <= k - 1 ensures Return(hs[1..][j]) in step.0 {
        assert hs[1..][j] == hs[j + 1];
      }
      MarkHorizonsLabels(step.0, hs[1..], threshold, k - 1);
      assert hs[1..][k - 1] == hs[k];
    }
  }

  /** The first horizon's labels: written by its own step, and a later
      horizon equal to it writes the same columns again. */
  lemma FirstHorizonLabels(columns: map<Label, Series>, hs: seq<int>, threshold: real)
    requires Typed(columns) && |hs| > 0 && Return(hs[0]) in columns
    ensures var m := MarkHorizons(columns, hs, threshold).0;
      && SignificantRise(hs[0]) in m && SignificantDrop(hs[0]) in m
      && m[SignificantRise(hs[0])] == LabelColumn(SignificantRise(hs[0]), columns[Return(hs[0])].values, threshold)
      && m[SignificantDrop(hs[0])] == LabelColumn(SignificantDrop(hs[0]), columns[Return(hs[0])].values, threshold)
  {
    var step := MarkOne(columns, hs[0], threshold);
    assert MarkHorizons(columns, hs, threshold) == MarkHorizons(step.0, hs[1..], threshold);
    MarkHorizonsFrame(step.0, hs[1..], threshold);
  }

  /** After the return stage has written `Return_{h}d` for every horizon of
      `hs`, labelling succeeds and each label is the strict comparison of the
      forward return with the threshold. */
  lemma LabelsFromReturns(columns: map<Label, Series>, hs: seq<int>, threshold: real, close: seq<real>)
    requires Typed(columns) && Positive(close)
    requires forall h :: h in hs ==>
      Return(h) in columns && columns[Return(h)] == Numeric(Returns.ForwardReturn(close, h))
    ensures var (m, ok) := MarkHorizons(columns, hs, threshold);
      && ok
      && (forall h :: h in hs ==>
            && SignificantRise(h) in m && SignificantDrop(h) in m
            && m[SignificantRise(h)] == Boolean(Greater(Returns.ForwardReturn(close, h), threshold))
            && m[SignificantDrop(h)] == Boolean(Less(Returns.ForwardReturn(close, h), -threshold)))
  {
    MarkHorizonsSucceeds(columns, hs, threshold);
    forall h | h in hs
      ensures var m := MarkHorizons(columns, hs, threshold).0;
        && SignificantRise(h) in m && SignificantDrop(h) in m
        && m[SignificantRise(h)] == Boolean(Greater(Returns.ForwardReturn(close, h), threshold))
        && m[SignificantDrop(h)] == Boolean(Less(Returns.ForwardReturn(close, h), -threshold))
    {
      var k :| 0 <= k < |hs| && hs[k] == h;
      MarkHorizonsLabels(columns, hs, threshold, k);
    }
  }

  /** Labelling keeps every column one entry per row. */
  lemma {:induction false} MarkHorizonsSized(columns: map<Label, Series>, hs: seq<int>, threshold: real, n: nat)
    requires Typed(columns) && Sized(columns, n)
    ensures Sized(MarkHorizons(columns, hs, threshold).0, n)
    decreases |hs|
  {
    if hs != [] {
      var step := MarkOne(columns, hs[0], threshold);
      assert Sized(step.0, n);
      if step.1 {
        MarkHorizonsSized(step.0, hs[1..], threshold, n);
      }
    }
  }

  /** With a non-negative threshold a row is never both a significant rise
      and a significant drop. */
  lemma Exclusive(ret: Column, threshold: real, i: int)
    requires threshold >= 0.0 && 0 <= i < |ret|
    ensures !(Greater(ret, threshold)[i] && Less(ret, -threshold)[i])
  {
  }

  /** The non-negative threshold is needed: below zero a flat return is both. */
  lemma NegativeThresholdOverlaps(threshold: real)
    requires threshold < 0.0
    ensures Greater([Some(0.0)], threshold)[0] && Less([Some(0.0)], -threshold)[0]
  {
  }

  /** The comparisons are strict: a return equal to the threshold is not a
      rise and one equal to minus the threshold is not a drop. */
  lemma StrictAtThreshold(ret: Column, threshold: real, i: int)
    requires 0 <= i < |ret|
    ensures ret[i] == Some(threshold) ==> !Greater(ret, threshold)[i]
    ensures ret[i] == Some(-threshold) ==> !Less(ret, -threshold)[i]
  {
  }

  /** A missing return gives false for both labels, not a missing label. */
  lemma MissingIsFalse(ret: Column, threshold: real, i: int)
    requires 0 <= i < |ret| && ret[i] == None
    ensures !Greater(ret, threshold)[i] && !Less(ret, -threshold)[i]
  {
  }

  /** A significant rise at row i over horizon h means the Close h rows
      later exceeds this Close by more than the threshold, as a fraction of
      this Close; a significant drop means it falls short by more than that. */
  lemma LabelsInPrices(close: seq<real>, h: int, threshold: real, i: int)
    requires Positive(close) && 0 <= i < |close|
    ensures Greater(Returns.ForwardReturn(close, h), threshold)[i]
        <==> 0 <= i + h < |close| && close[i + h] > close[i] * (1.0 + threshold)
    ensures Less(Returns.ForwardReturn(close, h), -threshold)[i]
        <==> 0 <= i + h < |close| && close[i + h] < close[i] * (1.0 - threshold)
  {
    if 0 <= i + h < |close| {
      RiseInRange(close, h, threshold, i);
      DropInRange(close, h, threshold, i);
    } else {
      ReturnMissing(close, h, i);
      MissingIsFalse(Returns.ForwardReturn(close, h), threshold, i);
    }
  }

  lemma RiseInRange(close: seq<real>, h: int, threshold: real, i: int)
    requires Positive(close) && 0 <= i < |close| && 0 <= i + h < |close|
    ensures Greater(Returns.ForwardReturn(close, h), threshold)[i] <==> close[i + h] > close[i] * (1.0 + threshold)
  {
    var q := ReturnAt(close, h, i);
    RiseAbove(close[i + h], close[i], threshold, q);
  }

  lemma DropInRange(close: seq<real>, h: int, threshold: real, i: int)
    requires Positive(close) && 0 <= i < |close| && 0 <= i + h < |close|
    ensures Less(Returns.ForwardReturn(close, h), -threshold)[i] <==> close[i + h] < close[i] * (1.0 - threshold)
  {
    var q := ReturnAt(close, h, i);
    DropBelow(close[i + h], close[i], threshold, q);
  }

  lemma ReturnMissing(close: seq<real>, h: int, i: int)
    requires Positive(close) && 0 <= i < |close| && !(0 <= i + h < |close|)
    ensures Returns.ForwardReturn(close, h)[i] == None
  {
  }

  /** The return at a row whose partner row exists, with the division undone. */
  lemma ReturnAt(close: seq<real>, h: int, i: int) returns (q: real)
    requires Positive(close) && 0 <= i < |close| && 0 <= i + h < |close|
    ensures Returns.ForwardReturn(close, h)[i] == Some(q)
    ensures q * close[i] == close[i + h] - close[i]
  {
    q := (close[i + h] - close[i]) / close[i];
  }

  /** For c > 0 and q the relative change from c to a: `q > t` iff `a > c * (1 + t)`. */
  lemma RiseAbove(a: real, c: real, t: real, q: real)
    requires c > 0.0 && q * c == a - c
    ensures q > t <==> a > c * (1.0 + t)
  {
    assert a == c * (1.0 + q);
  }

  /** For c > 0 and q the relative change from c to a: `q < -t` iff `a < c * (1 - t)`. */
  lemma DropBelow(a: real, c: real, t: real, q: real)
    requires c > 0.0 && q * c == a - c
    ensures q < -t <==> a < c * (1.0 - t)
  {
    assert a == c * (1.0 + q);
  }

  /** A ten-row series: its 3-row returns are present on rows 0 to 6 only, row
      0's is (102 - 100) / 100 = 0.02 and row 6's (108 - 104) / 104, and with
      the default threshold no row is labelled a significant rise or drop. */
  lemma TenRowExample()
    ensures var close := [100.0, 101.0, 99.0, 102.0, 103.0, 101.0, 104.0, 106.0, 103.0, 108.0];
      var ret := Returns.ForwardReturn(close, 3);
      && (forall i :: 0 <= i < 10 ==> (ret[i].Some? <==> i <= 6))
      && ret[0] == Some(0.02) && ret[6] == Some(4.0 / 104.0)
      && (forall i :: 0 <= i < 10 ==> !Greater(ret, DefaultThreshold)[i] && !Less(ret, -DefaultThreshold)[i])
  {
    var close := [100.0, 101.0, 99.0, 102.0, 103.0, 101.0, 104.0, 106.0, 103.0, 108.0];
    var ret := Returns.ForwardReturn(close, 3);
    var q0 := ReturnAt(close, 3, 0);
    var q1 := ReturnAt(close, 3, 1);
    var q2 := ReturnAt(close, 3, 2);
    var q3 := ReturnAt(close, 3, 3);
    var q4 := ReturnAt(close, 3, 4);
    var q5 := ReturnAt(close, 3, 5);
    var q6 := ReturnAt(close, 3, 6);
    assert q0 == 0.02 && q6 == 4.0 / 104.0;
    assert forall i :: 0 <= i <= 6 ==> -DefaultThreshold <= ret[i].value <= DefaultThreshold;
  }
}
