/** The kline (candlestick) feature stage, `calculate_kline_features`.

    Each derived column is written the way the source writes it, as pandas
    arithmetic over whole columns (shifts, a rolling mean, elementwise
    operations); its contract states the row-by-row value that arithmetic
    gives, including the rows a shift or a window leaves missing.
 */
module Kline {
  import opened Columns
  import opened Table

  /** The length of the trailing volume window. */
  const VolumeWindow: nat := 5

  /** The two lags of the trend feature: Close two rows back against Close seven rows back. */
  const TrendNear: int := 2
  const TrendFar: int := 7

  /** The raw columns of one instrument, one entry per row, with Close and
      Volume positive so that every division of the stage is defined. */
  predicate Bars(open: seq<real>, high: seq<real>, low: seq<real>, close: seq<real>, volume: seq<real>)
  {
    |open| == |close| && |high| == |close| && |low| == |close| && |volume| == |close| &&
    Positive(close) && Positive(volume)
  }

  /** `x / Close * 100`: a column as a percentage of the same row's Close. */
  function Percent(x: Column, close: seq<real>): (r: Column)
    requires |x| == |close| && Positive(close)
    ensures |r| == |x|
    ensures forall i :: 0 <= i < |x| ==> (r[i].Some? <==> x[i].Some?)
    ensures forall i :: 0 <= i < |x| && x[i].Some? ==> r[i].value == x[i].value / close[i] * 100.0
  {
    Combine(Combine(x, Lift(close), Over), Constant(|x|, 100.0), Times)
  }

  /** `Upper_Shadow`: the wick above the body, as a percentage of Close. */
  function UpperShadowColumn(open: seq<real>, high: seq<real>, close: seq<real>): (r: Column)
    requires |open| == |close| && |high| == |close| && Positive(close)
    ensures |r| == |close| && Complete(r)
    ensures forall i :: 0 <= i < |close| ==>
              r[i].value == (high[i] - Larger(open[i], close[i])) / close[i] * 100.0
  {
    Percent(Combine(Lift(high), Combine(Lift(open), Lift(close), Maximum), Minus), close)
  }

  /** `Lower_Shadow`: the wick below the body, as a percentage of Close. */
  function LowerShadowColumn(open: seq<real>, low: seq<real>, close: seq<real>): (r: Column)
    requires |open| == |close| && |low| == |close| && Positive(close)
    ensures |r| == |close| && Complete(r)
    ensures forall i :: 0 <= i < |close| ==>
              r[i].value == (Smaller(open[i], close[i]) - low[i]) / close[i] * 100.0
  {
    Percent(Combine(Combine(Lift(open), Lift(close), Minimum), Lift(low), Minus), close)
  }

  /** `Body_Length`: the signed body, Close minus Open, as a percentage of Close. */
  function BodyLengthColumn(open: seq<real>, close: seq<real>): (r: Column)
    requires |open| == |close| && Positive(close)
    ensures |r| == |close| && Complete(r)
    ensures forall i :: 0 <= i < |close| ==> r[i].value == (close[i] - open[i]) / close[i] * 100.0
  {
    Percent(Combine(Lift(close), Lift(open), Minus), close)
  }

  /** `shift(1)` of a feature column: the `Prev_*` features.  Row 0 has no
      previous row and is missing; every later row holds the row before it. */
  function PreviousRow(c: Column): (r: Column)
    ensures |r| == |c|
    ensures |c| > 0 ==> r[0] == None
    ensures forall i :: 1 <= i < |c| ==> r[i] == c[i - 1]
  {
    Shift(c, 1)
  }

  /** `Opening_Type`: the gap from the previous Close to this Open, as a
      percentage of this row's (not the previous row's) Close. */
  function OpeningTypeColumn(open: seq<real>, close: seq<real>): (r: Column)
    requires |open| == |close| && Positive(close)
    ensures |r| == |close|
    ensures |close| > 0 ==> r[0] == None
    ensures forall i :: 1 <= i < |close| ==>
              r[i] == Some((open[i] - close[i - 1]) / close[i] * 100.0)
  {
    PercentChangeFromPreviousClose(open, close);
    Percent(Combine(Lift(open), Shift(Lift(close), 1), Minus), close)
  }

  /** `Closing_Type`: the change from the previous Close to this Close, as a
      percentage of this row's Close. */
  function ClosingTypeColumn(close: seq<real>): (r: Column)
    requires Positive(close)
    ensures |r| == |close|
    ensures |close| > 0 ==> r[0] == None
    ensures forall i :: 1 <= i < |close| ==>
              r[i] == Some((close[i] - close[i - 1]) / close[i] * 100.0)
  {
    PercentChangeFromPreviousClose(close, close);
    Percent(Combine(Lift(close), Shift(Lift(close), 1), Minus), close)
  }

  /** `x - Close.shift(1)`: missing at row 0, and row i's x minus the
      previous row's Close from row 1 on. */
  lemma ChangeFromPreviousClose(x: seq<real>, close: seq<real>)
    requires |x| == |close|
    ensures var d := Combine(Lift(x), Shift(Lift(close), 1), Minus);
      && |d| == |close|
      && (|close| > 0 ==> d[0] == None)
      && (forall i :: 1 <= i < |close| ==> d[i] == Some(x[i] - close[i - 1]))
  {
  }

  /** `(x - Close.shift(1)) / Close * 100`: missing at row 0, and from row 1
      on row i's x minus the previous Close, as a percentage of this row's Close. */
  lemma PercentChangeFromPreviousClose(x: seq<real>, close: seq<real>)
    requires |x| == |close| && Positive(close)
    ensures var r := Percent(Combine(Lift(x), Shift(Lift(close), 1), Minus), close);
      && |r| == |close|
      && (|close| > 0 ==> r[0] == None)
      && (forall i :: 1 <= i < |close| ==> r[i] == Some((x[i] - close[i - 1]) / close[i] * 100.0))
  {
    var d := Combine(Lift(x), Shift(Lift(close), 1), Minus);
    ChangeFromPreviousClose(x, close);
    var r := Percent(d, close);
    forall i | 1 <= i < |close|
      ensures r[i] == Some((x[i] - close[i - 1]) / close[i] * 100.0)
    {
      assert d[i] == Some(x[i] - close[i - 1]);
    }
  }

  /** `5Day_MA_Volume`: the mean Volume of the five rows ending at this one;
      missing for rows 0 to 3. */
  function VolumeAverageColumn(volume: seq<real>): (r: Column)
    ensures |r| == |volume|
    ensures forall i :: 0 <= i < |volume| ==> (r[i].Some? <==> i >= VolumeWindow - 1)
    ensures forall i :: VolumeWindow - 1 <= i < |volume| ==>
              r[i].value == Mean(volume[i - (VolumeWindow - 1)..i + 1])
  {
    RollingMean(volume, VolumeWindow)
  }

  /** `Volume_Ratio`: how far this row's Volume lies above the average column
      `average`, as a fraction of this row's Volume; missing exactly where the
      average is. */
  function VolumeRatioColumn(volume: seq<real>, average: Column): (r: Column)
    requires |average| == |volume| && Positive(volume)
    ensures |r| == |volume|
    ensures forall i :: 0 <= i < |volume| ==> (r[i].Some? <==> average[i].Some?)
    ensures forall i :: 0 <= i < |volume| && average[i].Some? ==>
              r[i].value == (volume[i] - average[i].value) / volume[i]
  {
    Combine(Combine(Lift(volume), average, Minus), Lift(volume), Over)
  }

  /** `5Day_Trend`: the relative change from Close seven rows back to Close
      two rows back; missing for rows 0 to 6. */
  function TrendColumn(close: seq<real>): (r: Column)
    requires Positive(close)
    ensures |r| == |close|
    ensures forall i :: 0 <= i < |close| ==> (r[i].Some? <==> i >= TrendFar)
    ensures forall i :: TrendFar <= i < |close| ==>
              r[i].value == (close[i - TrendNear] - close[i - TrendFar]) / close[i - TrendFar]
  {
    var c := Lift(close);
    Combine(Combine(Shift(c, TrendNear), Shift(c, TrendFar), Minus), Shift(c, TrendFar), Over)
  }

  /** The eleven columns `calculate_kline_features` adds to the table. */
  function Features(open: seq<real>, high: seq<real>, low: seq<real>, close: seq<real>, volume: seq<real>)
    : (m: map<Label, Series>)
    requires Bars(open, high, low, close, volume)
    ensures forall l :: l in m <==> l.IsFeature()
    ensures Sized(m, |close|) && Typed(m)
    ensures UpperShadow in m && m[UpperShadow] == Numeric(UpperShadowColumn(open, high, close))
    ensures LowerShadow in m && m[LowerShadow] == Numeric(LowerShadowColumn(open, low, close))
    ensures BodyLength in m && m[BodyLength] == Numeric(BodyLengthColumn(open, close))
    ensures PrevUpperShadow in m && m[PrevUpperShadow] == Numeric(PreviousRow(UpperShadowColumn(open, high, close)))
    ensures PrevLowerShadow in m && m[PrevLowerShadow] == Numeric(PreviousRow(LowerShadowColumn(open, low, close)))
    ensures PrevBodyLength in m && m[PrevBodyLength] == Numeric(PreviousRow(BodyLengthColumn(open, close)))
    ensures OpeningType in m && m[OpeningType] == Numeric(OpeningTypeColumn(open, close))
    ensures ClosingType in m && m[ClosingType] == Numeric(ClosingTypeColumn(close))
    ensures MaVolume5 in m && m[MaVolume5] == Numeric(VolumeAverageColumn(volume))
    ensures VolumeRatio in m && m[VolumeRatio] == Numeric(VolumeRatioColumn(volume, VolumeAverageColumn(volume)))
    ensures Trend5 in m && m[Trend5] == Numeric(TrendColumn(close))
  {
    var upper := UpperShadowColumn(open, high, close);
    var lower := LowerShadowColumn(open, low, close);
    var body := BodyLengthColumn(open, close);
    var average := VolumeAverageColumn(volume);
    var c := [upper, lower, body, PreviousRow(upper), PreviousRow(lower), PreviousRow(body),
              OpeningTypeColumn(open, close), ClosingTypeColumn(close),
              average, VolumeRatioColumn(volume, average), TrendColumn(close)];
    LabelledAt(c, |close|);
    Labelled(c, |close|)
  }

  /** The eleven feature columns under their labels, in the order the stage writes them. */
  function Labelled(c: seq<Column>, n: nat): (m: map<Label, Series>)
    requires |c| == 11 && forall k :: 0 <= k < 11 ==> |c[k]| == n
    ensures forall l :: l in m <==> l.IsFeature()
    ensures Sized(m, n) && Typed(m)
  {
    map[UpperShadow := Numeric(c[0]), LowerShadow := Numeric(c[1]), BodyLength := Numeric(c[2]),
        PrevUpperShadow := Numeric(c[3]), PrevLowerShadow := Numeric(c[4]), PrevBodyLength := Numeric(c[5]),
        OpeningType := Numeric(c[6]), ClosingType := Numeric(c[7]),
        MaVolume5 := Numeric(c[8]), VolumeRatio := Numeric(c[9]), Trend5 := Numeric(c[10])]
  }

  /** `Labelled` puts the k-th column under the k-th label the stage writes. */
  lemma LabelledAt(c: seq<Column>, n: nat)
    requires |c| == 11 && forall k :: 0 <= k < 11 ==> |c[k]| == n
    ensures var m := Labelled(c, n);
      && m[UpperShadow] == Numeric(c[0]) && m[LowerShadow] == Numeric(c[1])
      && m[BodyLength] == Numeric(c[2]) && m[PrevUpperShadow] == Numeric(c[3])
      && m[PrevLowerShadow] == Numeric(c[4]) && m[PrevBodyLength] == Numeric(c[5])
      && m[OpeningType] == Numeric(c[6]) && m[ClosingType] == Numeric(c[7])
      && m[MaVolume5] == Numeric(c[8]) && m[VolumeRatio] == Numeric(c[9])
      && m[Trend5] == Numeric(c[10])
  {
  }

  /** Writing the eleven feature columns one label after the other, in the
      order the stage writes them, adds the map `Labelled` builds. */
  lemma WriteInOrder(base: map<Label, Series>, c: seq<Column>, n: nat)
    requires |c| == 11 && forall k :: 0 <= k < 11 ==> |c[k]| == n
    ensures base[UpperShadow := Numeric(c[0])][LowerShadow := Numeric(c[1])][BodyLength := Numeric(c[2])]
                [PrevUpperShadow := Numeric(c[3])][PrevLowerShadow := Numeric(c[4])][PrevBodyLength := Numeric(c[5])]
                [OpeningType := Numeric(c[6])][ClosingType := Numeric(c[7])]
                [MaVolume5 := Numeric(c[8])][VolumeRatio := Numeric(c[9])][Trend5 := Numeric(c[10])]
         == base + Labelled(c, n)
  {
  }

  /** The sign of `x / c * 100` is the sign of x when c is positive. */
  lemma PercentSign(x: real, c: real)
    requires c > 0.0
    ensures x / c * 100.0 > 0.0 <==> x > 0.0
    ensures x / c * 100.0 < 0.0 <==> x < 0.0
    ensures x / c * 100.0 == 0.0 <==> x == 0.0
  {
    if x > 0.0 {
      assert x / c > 0.0;
    } else if x < 0.0 {
      assert x / c < 0.0;
    }
  }

  /** A bullish candle (Close above Open) is exactly one with a positive
      body, a bearish one exactly one with a negative body, and a doji
      exactly one with a zero body. */
  lemma BodyLengthSign(open: seq<real>, close: seq<real>, i: int)
    requires |open| == |close| && Positive(close) && 0 <= i < |close|
    ensures BodyLengthColumn(open, close)[i].value > 0.0 <==> close[i] > open[i]
    ensures BodyLengthColumn(open, close)[i].value < 0.0 <==> close[i] < open[i]
    ensures BodyLengthColumn(open, close)[i].value == 0.0 <==> close[i] == open[i]
  {
    PercentSign(close[i] - open[i], close[i]);
  }

  /** The upper shadow is non-negative exactly when High is at least the top
      of the body, and the lower shadow exactly when Low is at most its bottom. */
  lemma ShadowSigns(open: seq<real>, high: seq<real>, low: seq<real>, close: seq<real>, i: int)
    requires |open| == |close| && |high| == |close| && |low| == |close| && Positive(close)
    requires 0 <= i < |close|
    ensures UpperShadowColumn(open, high, close)[i].value >= 0.0 <==> high[i] >= Larger(open[i], close[i])
    ensures LowerShadowColumn(open, low, close)[i].value >= 0.0 <==> low[i] <= Smaller(open[i], close[i])
  {
    PercentSign(high[i] - Larger(open[i], close[i]), close[i]);
    PercentSign(Smaller(open[i], close[i]) - low[i], close[i]);
  }

  /** Because all three share this row's Close as denominator, the
      close-to-close change is the opening gap plus the body. */
  lemma GapPlusBody(open: seq<real>, close: seq<real>, i: int)
    requires |open| == |close| && Positive(close) && 1 <= i < |close|
    ensures ClosingTypeColumn(close)[i].value
         == OpeningTypeColumn(open, close)[i].value + BodyLengthColumn(open, close)[i].value
  {
    var c, p, o := close[i], close[i - 1], open[i];
    ClosingTypeAt(close, i);
    OpeningTypeAt(open, close, i);
    BodyLengthAt(open, close, i);
    PercentAdds(o - p, c - o, c - p, c);
  }

  lemma ClosingTypeAt(close: seq<real>, i: int)
    requires Positive(close) && 1 <= i < |close|
    ensures ClosingTypeColumn(close)[i].value == (close[i] - close[i - 1]) / close[i] * 100.0
  {
  }

  lemma OpeningTypeAt(open: seq<real>, close: seq<real>, i: int)
    requires |open| == |close| && Positive(close) && 1 <= i < |close|
    ensures OpeningTypeColumn(open, close)[i].value == (open[i] - close[i - 1]) / close[i] * 100.0
  {
  }

  lemma BodyLengthAt(open: seq<real>, close: seq<real>, i: int)
    requires |open| == |close| && Positive(close) && 0 <= i < |close|
    ensures BodyLengthColumn(open, close)[i].value == (close[i] - open[i]) / close[i] * 100.0
  {
  }

  /** Percentages of one denominator add up. */
  lemma PercentAdds(x: real, y: real, z: real, c: real)
    requires c > 0.0 && z == x + y
    ensures z / c * 100.0 == x / c * 100.0 + y / c * 100.0
  {
  }

  /** The trailing average includes this row's Volume and four more positive
      volumes, so it exceeds a fifth of this Volume: the ratio is below 4/5. */
  lemma VolumeRatioBelow(volume: seq<real>, i: int)
    requires Positive(volume) && VolumeWindow - 1 <= i < |volume|
    ensures VolumeRatioColumn(volume, VolumeAverageColumn(volume))[i].value < 0.8
  {
    WindowExceedsLast(volume, i);
    VolumeRatioAt(volume, i);
    RatioBelow(volume[i], Sum(volume[i - (VolumeWindow - 1)..i + 1]), VolumeAverageColumn(volume)[i].value);
  }

  /** The five-row window ending at row i sums to more than row i's Volume. */
  lemma WindowExceedsLast(volume: seq<real>, i: int)
    requires Positive(volume) && VolumeWindow - 1 <= i < |volume|
    ensures volume[i] < Sum(volume[i - (VolumeWindow - 1)..i + 1])
  {
    var window := volume[i - (VolumeWindow - 1)..i + 1];
    assert window[..|window| - 1] == volume[i - (VolumeWindow - 1)..i];
    SumLast(window);
    SumPositive(window[..|window| - 1]);
  }

  lemma VolumeRatioAt(volume: seq<real>, i: int)
    requires Positive(volume) && VolumeWindow - 1 <= i < |volume|
    ensures VolumeAverageColumn(volume)[i].value == Sum(volume[i - (VolumeWindow - 1)..i + 1]) / 5.0
    ensures VolumeRatioColumn(volume, VolumeAverageColumn(volume))[i].value
         == (volume[i] - VolumeAverageColumn(volume)[i].value) / volume[i]
  {
  }

  /** With 0 < v < s, `(v - s / 5) / v` is below 4/5. */
  lemma RatioBelow(v: real, s: real, average: real)
    requires 0.0 < v < s && average == s / 5.0
    ensures (v - average) / v < 0.8
  {
    var x := v - average;
    assert x < 0.8 * v;
    assert x / v * v == x;
  }

  /** A one-row table: the shape features are present and every lagged or
      windowed feature is missing. */
  lemma SingleRow(open: seq<real>, high: seq<real>, low: seq<real>, close: seq<real>, volume: seq<real>)
    requires Bars(open, high, low, close, volume) && |close| == 1
    ensures var m := Features(open, high, low, close, volume);
      && m[UpperShadow].values[0].Some? && m[LowerShadow].values[0].Some?
      && m[BodyLength].values[0].Some?
      && m[PrevUpperShadow].values[0] == None && m[PrevLowerShadow].values[0] == None
      && m[PrevBodyLength].values[0] == None
      && m[OpeningType].values[0] == None && m[ClosingType].values[0] == None
      && m[MaVolume5].values[0] == None && m[VolumeRatio].values[0] == None
      && m[Trend5].values[0] == None
  {
  }
}
