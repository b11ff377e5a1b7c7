/** The optional value used for every nullable cell of the table: `None`
    stands for a missing value (NaN / NaT / pd.NA in the dashboard script). */
module Wrappers {

  datatype Option<+T> = None | Some(value: T) {

    /** The cell's value, with `fill` standing in for a missing one
        (the effect of `fillna(fill)` on a single cell) */
    function ValueOr(fill: T): (v: T)
      ensures Some? ==> v == value
      ensures None? ==> v == fill
    {
      if Some? then value else fill
    }
  }
}
