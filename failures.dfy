/** Optional values, results and outcomes, plus the hard failures the stat system raises. */
module Failures {

  datatype Option<+T> = None | Some(value: T)

  datatype Result<+R, +E> = Success(value: R) | Failure(error: E)

  /** The result of an operation that either completes or aborts with an error. */
  datatype Outcome<+E> = Pass | Fail(error: E)

  /**
   * The exceptions the runtime throws, one constructor per throw site:
   * a duplicate stat name (InvalidOperationException in AddStat), a missing stat
   * (NullReferenceException in GetStat), a second handler for one stat name
   * (InvalidOperationException in the two Register methods) and a Custom modifier
   * built without its calculation (NullReferenceException in the StatModifier constructor).
   */
  datatype StatError =
    | DuplicateStat(name: string)
    | StatNotFound(name: string)
    | DuplicateHandler(name: string)
    | MissingCustomCalculation
}
