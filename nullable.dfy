/**
 * Nullable cells. Every column of a relation loaded from a CSV file may be
 * null; `Option` keeps "null" apart from every real value (in particular from
 * the number zero).
 */
module Nullable {

  datatype Option<+T> = None | Some(value: T) {

    /** The value, or `default` when null (the meaning of `na().fill`). */
    function GetOr(default: T): T {
      match this
      case Some(v) => v
      case None => default
    }
  }

  /**
   * The combining step of SQL `sum`: null values are skipped, and the result
   * is null only when both operands are.
   */
  function Plus(x: Option<int>, y: Option<int>): (r: Option<int>)
    ensures r.None? <==> x.None? && y.None?
  {
    if x.None? then y
    else if y.None? then x
    else Some(x.value + y.value)
  }

  lemma PlusAssociative(x: Option<int>, y: Option<int>, z: Option<int>)
    ensures Plus(Plus(x, y), z) == Plus(x, Plus(y, z))
  {
  }

  lemma PlusCommutative(x: Option<int>, y: Option<int>)
    ensures Plus(x, y) == Plus(y, x)
  {
  }
}
