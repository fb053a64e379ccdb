/** The derived columns of one instrument's table, keyed by column label.

    A pandas DataFrame is, for this pipeline, a dictionary from column label to
    a column of one entry per row.  The raw Open/High/Low/Close/Volume columns
    are kept apart (see `Frames.Frame`); this module names the derived ones.
 */
module Table {
  import opened Columns

  /** The labels the three stages write.  `Return(h)` stands for the label
      `Return_{h}d`, `SignificantRise(h)` for `Significant_Rise_{h}d` and
      `SignificantDrop(h)` for `Significant_Drop_{h}d`; `MaVolume5` is
      `5Day_MA_Volume` and `Trend5` is `5Day_Trend`. */
  datatype Label =
    | UpperShadow | LowerShadow | BodyLength
    | PrevUpperShadow | PrevLowerShadow | PrevBodyLength
    | OpeningType | ClosingType
    | MaVolume5 | VolumeRatio
    | Trend5
    | Return(h: int)
    | SignificantRise(h: int) | SignificantDrop(h: int)
  {
    /** Whether the label is one of the eleven the kline feature stage writes. */
    predicate IsFeature()
    {
      !(Return? || SignificantRise? || SignificantDrop?)
    }

    /** Whether the column under this label holds booleans. */
    predicate IsFlag()
    {
      SignificantRise? || SignificantDrop?
    }
  }

  /** A column of the table: numeric with missing values, or boolean. */
  datatype Series = Numeric(values: Column) | Boolean(flags: seq<bool>)
  {
    function Length(): nat
    {
      match this
      case Numeric(v) => |v|
      case Boolean(f) => |f|
    }
  }

  /** Every column has one entry per row of an `n`-row table. */
  predicate Sized(columns: map<Label, Series>, n: nat)
  {
    forall l :: l in columns ==> columns[l].Length() == n
  }

  /** Label columns are boolean and every other column is numeric. */
  predicate Typed(columns: map<Label, Series>)
  {
    forall l :: l in columns ==> (l.IsFlag() <==> columns[l].Boolean?)
  }

  /** Adding the columns of one table to another keeps both properties. */
  lemma Merge(a: map<Label, Series>, b: map<Label, Series>, n: nat)
    requires Sized(a, n) && Typed(a) && Sized(b, n) && Typed(b)
    ensures Sized(a + b, n) && Typed(a + b)
  {
  }

  /** Writing one column after adding a table is adding the table with that column written. */
  lemma WriteAfterMerge(a: map<Label, Series>, b: map<Label, Series>, l: Label, v: Series)
    ensures (a + b)[l := v] == a + b[l := v]
  {
  }
}
