/** One instrument's table and the three stages that extend it in place.

    The source passes a pandas DataFrame to each stage, which adds columns to
    it and returns the same object.  `Frame` is that table: the raw columns
    as attributes and the derived columns as a dictionary the stages update.
 */
module Frames {
  import opened Columns
  import opened Table
  import Kline
  import Returns
  import Labels

  class Frame {
    var open: seq<real>
    var high: seq<real>
    var low: seq<real>
    var close: seq<real>
    var volume: seq<real>
    var columns: map<Label, Series>

    /** All raw columns have one entry per row, so do all derived ones, and
        label columns are boolean while the others are numeric. */
    ghost predicate Valid()
      reads this
    {
      |open| == |close| && |high| == |close| && |low| == |close| && |volume| == |close| &&
      Sized(columns, |close|) && Typed(columns)
    }

    /** The raw table of one instrument, before any stage has run. */
    constructor (open: seq<real>, high: seq<real>, low: seq<real>, close: seq<real>, volume: seq<real>)
      requires |open| == |close| && |high| == |close| && |low| == |close| && |volume| == |close|
      ensures Valid()
      ensures this.open == open && this.high == high && this.low == low
      ensures this.close == close && this.volume == volume
      ensures columns == map[]
    {
      this.open, this.high, this.low, this.close, this.volume := open, high, low, close, volume;
      columns := map[];
    }

    /** `calculate_kline_features`: adds the eleven kline feature columns,
        replacing any earlier column under the same label, and changes
        nothing else. */
    method CalculateKlineFeatures()
      requires Valid() && Positive(close) && Positive(volume)
      modifies this
      ensures Valid()
      ensures open == old(open) && high == old(high) && low == old(low)
      ensures close == old(close) && volume == old(volume)
      ensures columns == old(columns) + Kline.Features(open, high, low, close, volume)
    {
      ghost var before := columns;
      var upper := Kline.UpperShadowColumn(open, high, close);
      var lower := Kline.LowerShadowColumn(open, low, close);
      var body := Kline.BodyLengthColumn(open, close);
      columns := columns[UpperShadow := Numeric(upper)];
      columns := columns[LowerShadow := Numeric(lower)];
      columns := columns[BodyLength := Numeric(body)];

      var prevUpper := Kline.PreviousRow(upper);
      var prevLower := Kline.PreviousRow(lower);
      var prevBody := Kline.PreviousRow(body);
      columns := columns[PrevUpperShadow := Numeric(prevUpper)];
      columns := columns[PrevLowerShadow := Numeric(prevLower)];
      columns := columns[PrevBodyLength := Numeric(prevBody)];

      var opening := Kline.OpeningTypeColumn(open, close);
      var closing := Kline.ClosingTypeColumn(close);
      columns := columns[OpeningType := Numeric(opening)];
      columns := columns[ClosingType := Numeric(closing)];

      var average := Kline.VolumeAverageColumn(volume);
      var ratio := Kline.VolumeRatioColumn(volume, average);
      columns := columns[MaVolume5 := Numeric(average)];
      columns := columns[VolumeRatio := Numeric(ratio)];

      var trend := Kline.TrendColumn(close);
      columns := columns[Trend5 := Numeric(trend)];

      ghost var added := [upper, lower, body, prevUpper, prevLower, prevBody,
                          opening, closing, average, ratio, trend];
      Kline.WriteInOrder(before, added, |close|);
      assert Kline.Features(open, high, low, close, volume) == Kline.Labelled(added, |close|);
      Merge(before, Kline.Labelled(added, |close|), |close|);
    }

    /** `calculate_future_returns`: adds `Return_{h}d` for each horizon in
        `periods`, in order, and changes nothing else. */
    method CalculateFutureReturns(periods: seq<int> := Returns.DefaultPeriods)
      requires Valid() && Positive(close)
      modifies this
      ensures Valid()
      ensures open == old(open) && high == old(high) && low == old(low)
      ensures close == old(close) && volume == old(volume)
      ensures columns == old(columns) + Returns.ReturnColumns(close, periods)
    {
      for k := 0 to |periods|
        invariant Valid()
        invariant open == old(open) && high == old(high) && low == old(low)
        invariant close == old(close) && volume == old(volume)
        invariant columns == old(columns) + Returns.ReturnColumns(close, periods[..k])
      {
        var period := periods[k];
        var ret := Returns.ForwardReturn(close, period);
        Returns.ReturnColumnsStep(close, periods, k);
        WriteAfterMerge(old(columns), Returns.ReturnColumns(close, periods[..k]), Return(period), Numeric(ret));
        columns := columns[Return(period) := Numeric(ret)];
        Merge(old(columns), Returns.ReturnColumns(close, periods[..k + 1]), |close|);
      }
      assert periods[..|periods|] == periods;
    }

    /** `mark_significant_changes`' two assignments for one horizon: the two
        labels of that horizon, or a failed lookup of `Return_{h}d` that
        leaves the table as it was. */
    method MarkHorizon(h: int, threshold: real) returns (ok: bool)
      requires Valid()
      modifies this
      ensures Valid()
      ensures open == old(open) && high == old(high) && low == old(low)
      ensures close == old(close) && volume == old(volume)
      ensures (columns, ok) == Labels.MarkOne(old(columns), h, threshold)
    {
      if Return(h) !in columns {
        return false;
      }
      var ret := columns[Return(h)].values;
      columns := columns[SignificantRise(h) := Boolean(Greater(ret, threshold))];
      columns := columns[SignificantDrop(h) := Boolean(Less(ret, -threshold))];
      ok := true;
    }

    /** `mark_significant_changes`: the labels of horizons 3, 20 and 60, in
        that order; `ok` is false when a `Return_{h}d` column is missing, in
        which case the labels of the horizons before it are kept. */
    method MarkSignificantChanges(threshold: real := Labels.DefaultThreshold) returns (ok: bool)
      requires Valid()
      modifies this
      ensures Valid()
      ensures open == old(open) && high == old(high) && low == old(low)
      ensures close == old(close) && volume == old(volume)
      ensures (columns, ok) == Labels.MarkHorizons(old(columns), Labels.LabelledHorizons, threshold)
    {
      ghost var hs := Labels.LabelledHorizons;
      assert hs[1..] == [20, 60] && hs[1..][1..] == [60] && hs[1..][1..][1..] == [];
      ok := MarkHorizon(3, threshold);
      if !ok {
        return;
      }
      ok := MarkHorizon(20, threshold);
      if !ok {
        return;
      }
      ok := MarkHorizon(60, threshold);
    }
  }

  /** The three stages in the order the program runs them on one instrument,
      with their default horizons and threshold: every label column is the
      strict comparison of its forward return with the threshold. */
  method Pipeline(open: seq<real>, high: seq<real>, low: seq<real>, close: seq<real>, volume: seq<real>)
    returns (f: Frame, ok: bool)
    requires Kline.Bars(open, high, low, close, volume)
    ensures fresh(f) && f.Valid() && ok
    ensures f.open == open && f.high == high && f.low == low && f.close == close && f.volume == volume
    ensures forall h :: h in Labels.LabelledHorizons ==>
              && SignificantRise(h) in f.columns && SignificantDrop(h) in f.columns
              && f.columns[SignificantRise(h)]
                 == Boolean(Greater(Returns.ForwardReturn(close, h), Labels.DefaultThreshold))
              && f.columns[SignificantDrop(h)]
                 == Boolean(Less(Returns.ForwardReturn(close, h), -Labels.DefaultThreshold))
    ensures forall l: Label :: l.IsFeature() ==>
              l in f.columns && f.columns[l] == Kline.Features(open, high, low, close, volume)[l]
    ensures forall h :: h in Returns.DefaultPeriods ==>
              Return(h) in f.columns && f.columns[Return(h)] == Numeric(Returns.ForwardReturn(close, h))
  {
    f := new Frame(open, high, low, close, volume);
    f.CalculateKlineFeatures();
    ghost var featured := f.columns;
    f.CalculateFutureReturns();
    ghost var returned := f.columns;
    Returns.ReturnsWritten(featured, close, Labels.LabelledHorizons);
    Returns.ReturnsWritten(featured, close, Returns.DefaultPeriods);
    ok := f.MarkSignificantChanges();
    Labels.MarkHorizonsFrame(returned, Labels.LabelledHorizons, Labels.DefaultThreshold);
    Labels.LabelsFromReturns(returned, Labels.LabelledHorizons, Labels.DefaultThreshold, close);
  }
}
