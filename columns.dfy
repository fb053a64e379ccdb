/** Columns of a price table and the pandas column operations the pipeline uses.

    A numeric column is a sequence with one entry per row; `None` stands for
    pandas' missing value (NaN).  Every operation here keeps the row count and
    lines rows up by index, as pandas does for columns that share one index.
 */
module Columns {

  datatype Option<+T> = None | Some(value: T)

  /** One numeric column: one entry per row, `None` where the value is missing. */
  type Column = seq<Option<real>>

  /** Every value strictly positive: what makes a division by the column defined. */
  predicate Positive(s: seq<real>)
  {
    forall i :: 0 <= i < |s| ==> s[i] > 0.0
  }

  /** A column with every value present (a raw price or volume column). */
  predicate Complete(c: Column)
  {
    forall i :: 0 <= i < |c| ==> c[i].Some?
  }

  /** A raw column as a column with no missing entry. */
  function Lift(s: seq<real>): (r: Column)
    ensures |r| == |s| && Complete(r)
    ensures forall i :: 0 <= i < |s| ==> r[i] == Some(s[i])
  {
    seq(|s|, i requires 0 <= i < |s| => Some(s[i]))
  }

  /** A scalar broadcast over `n` rows. */
  function Constant(n: nat, x: real): (r: Column)
    ensures |r| == n && Complete(r)
    ensures forall i :: 0 <= i < n ==> r[i] == Some(x)
  {
    seq(n, i requires 0 <= i < n => Some(x))
  }

  /** `Series.shift(k)`: row i takes the value row i - k had; a row whose
      source row lies outside the table is missing.  A positive k looks back
      (a lag), a negative k looks ahead (a lead). */
  function Shift(c: Column, k: int): (r: Column)
    ensures |r| == |c|
    ensures forall i :: 0 <= i < |c| && 0 <= i - k < |c| ==> r[i] == c[i - k]
    ensures forall i :: 0 <= i < |c| && !(0 <= i - k < |c|) ==> r[i] == None
  {
    seq(|c|, i requires 0 <= i < |c| => if 0 <= i - k < |c| then c[i - k] else None)
  }

  /** Shifting a complete column leaves exactly the rows without a source row missing. */
  lemma ShiftDefinedExactly(c: Column, k: int, i: int)
    requires Complete(c) && 0 <= i < |c|
    ensures Shift(c, k)[i].Some? <==> 0 <= i - k < |c|
  {
  }

  /** `np.maximum` and `np.minimum` on two present values. */
  function Larger(x: real, y: real): (r: real)
    ensures r >= x && r >= y && (r == x || r == y)
  {
    if x >= y then x else y
  }

  function Smaller(x: real, y: real): (r: real)
    ensures r <= x && r <= y && (r == x || r == y)
  {
    if x <= y then x else y
  }

  /** The elementwise binary operations of the pipeline's formulas. */
  datatype Op = Plus | Minus | Times | Over | Maximum | Minimum

  /** Division is only taken by a non-zero value (pandas would give inf). */
  predicate Admits(op: Op, y: real)
  {
    op != Over || y != 0.0
  }

  function Apply(op: Op, x: real, y: real): real
    requires Admits(op, y)
  {
    match op
    case Plus => x + y
    case Minus => x - y
    case Times => x * y
    case Over => x / y
    case Maximum => Larger(x, y)
    case Minimum => Smaller(x, y)
  }

  /** The arithmetic of two aligned columns, as pandas evaluates `a op b`:
      a row is missing in the result iff it is missing in either operand. */
  function Combine(a: Column, b: Column, op: Op): (r: Column)
    requires |a| == |b|
    requires forall i :: 0 <= i < |a| && a[i].Some? && b[i].Some? ==> Admits(op, b[i].value)
    ensures |r| == |a|
    ensures forall i :: 0 <= i < |a| ==> (r[i].Some? <==> a[i].Some? && b[i].Some?)
    ensures forall i :: 0 <= i < |a| && a[i].Some? && b[i].Some? ==>
              r[i].value == Apply(op, a[i].value, b[i].value)
  {
    seq(|a|, i requires 0 <= i < |a| =>
      if a[i].Some? && b[i].Some? then Some(Apply(op, a[i].value, b[i].value)) else None)
  }

  /** `column > x`: a missing value compares as false, as NaN does in pandas. */
  function Greater(c: Column, x: real): (r: seq<bool>)
    ensures |r| == |c|
    ensures forall i :: 0 <= i < |c| ==> (r[i] <==> c[i].Some? && c[i].value > x)
  {
    seq(|c|, i requires 0 <= i < |c| => c[i].Some? && c[i].value > x)
  }

  /** `column < x`, with the same treatment of missing values. */
  function Less(c: Column, x: real): (r: seq<bool>)
    ensures |r| == |c|
    ensures forall i :: 0 <= i < |c| ==> (r[i] <==> c[i].Some? && c[i].value < x)
  {
    seq(|c|, i requires 0 <= i < |c| => c[i].Some? && c[i].value < x)
  }

  /** The sum of a run of values, first value first. */
  function Sum(s: seq<real>): real
  {
    if s == [] then 0.0 else s[0] + Sum(s[1..])
  }

  /** The arithmetic mean of a non-empty run of values. */
  function Mean(s: seq<real>): real
    requires |s| > 0
  {
    Sum(s) / |s| as real
  }

  lemma {:induction false} SumPositive(s: seq<real>)
    requires Positive(s) && |s| > 0
    ensures Sum(s) > 0.0
  {
    if |s| > 1 {
      SumPositive(s[1..]);
    }
  }

  /** Taking the last value off a run: Sum(s) is Sum(s[..|s|-1]) plus that value. */
  lemma {:induction false} SumLast(s: seq<real>)
    requires |s| > 0
    ensures Sum(s) == Sum(s[..|s| - 1]) + s[|s| - 1]
  {
    if |s| > 1 {
      SumLast(s[1..]);
      assert s[1..][..|s[1..]| - 1] == s[..|s| - 1][1..];
    }
  }

  /** One more lag added to a rolling sum of w - 1 rows gives the rolling sum
      of w rows: the window ending at row i gains row i - w + 1 at its front. */
  lemma RollingStep(s: seq<real>, w: nat, shorter: Column, r: Column)
    requires w >= 2 && |shorter| == |s|
    requires forall i :: 0 <= i < |s| ==> (shorter[i].Some? <==> i >= w - 2)
    requires forall i :: w - 2 <= i < |s| ==> shorter[i].value == Sum(s[i - w + 2..i + 1])
    requires r == Combine(shorter, Shift(Lift(s), w - 1), Plus)
    ensures forall i :: w - 1 <= i < |s| ==> r[i].value == Sum(s[i - w + 1..i + 1])
  {
    forall i | w - 1 <= i < |s|
      ensures r[i].value == Sum(s[i - w + 1..i + 1])
    {
      assert s[i - w + 1..i + 1][1..] == s[i - w + 2..i + 1];
    }
  }

  /** `rolling(window=w).sum()` over a complete column, built as the sum of
      the column and its lags 1 .. w-1: a row has a value exactly when a
      full window of w rows ends at it. */
  function RollingSum(s: seq<real>, w: nat): (r: Column)
    requires w >= 1
    ensures |r| == |s|
    ensures forall i :: 0 <= i < |s| ==> (r[i].Some? <==> i >= w - 1)
    ensures forall i :: w - 1 <= i < |s| ==> r[i].value == Sum(s[i - w + 1..i + 1])
  {
    if w == 1 then
      assert forall i :: 0 <= i < |s| ==> s[i..i + 1] == [s[i]];
      Lift(s)
    else
      var shorter := RollingSum(s, w - 1);
      var r := Combine(shorter, Shift(Lift(s), w - 1), Plus);
      RollingStep(s, w, shorter, r);
      r
  }

  /** `rolling(window=w).mean()` over a complete column: missing for the
      first w - 1 rows, the mean of the trailing w rows (the current one
      included) from then on. */
  function RollingMean(s: seq<real>, w: nat): (r: Column)
    requires w >= 1
    ensures |r| == |s|
    ensures forall i :: 0 <= i < |s| ==> (r[i].Some? <==> i >= w - 1)
    ensures forall i :: w - 1 <= i < |s| ==> r[i].value == Mean(s[i - w + 1..i + 1])
  {
    Combine(RollingSum(s, w), Constant(|s|, w as real), Over)
  }
}
