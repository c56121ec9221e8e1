/** Small datatypes shared by every part of the model. */
module Common {

  /** A value that may be missing: Python's `None` or an absent dictionary key. */
  datatype Option<+T> = None | Some(value: T) {

    /** The value, or `default` when there is none (Python's `d.get(k, default)`). */
    function GetOr(default: T): T {
      match this
      case Some(v) => v
      case None => default
    }
  }

  /** How often a habit is meant to be done. The command line only accepts these two. */
  datatype Periodicity = Daily | Weekly

  /** Days that may elapse between two completions before a streak resets. */
  function ThresholdDays(p: Periodicity): int {
    if p == Daily then 1 else 7
  }
}
