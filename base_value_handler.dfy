/** Runtime/StatBaseValueChangeHandler.cs: a stat name bound to a function that rewrites base-value writes. */
module BaseValueHandlers {

  /**
   * The handler delegate: it receives the target stat (here its name) and the requested
   * value, and returns the value that is actually stored.
   */
  type HandlerFunction = (string, real) -> real

  /** The handler value. Both fields are fixed at construction; nothing reassigns them. */
  datatype StatBaseValueChangeHandler = StatBaseValueChangeHandler(targetStat: string, handler: HandlerFunction)

  /**
   * Runs the wrapped delegate on the arguments, with no processing of its own; the
   * stored target name serves the container as a key and never enters the result.
   */
  function HandleValueChange(h: StatBaseValueChangeHandler, targetStat: string, targetValue: real): (r: real)
    ensures r == h.handler(targetStat, targetValue)
  {
    h.handler(targetStat, targetValue)
  }

  /** The clamping handler used by the package's own tests: `max(value, 0)`. */
  function ClampNonNegative(targetStat: string): StatBaseValueChangeHandler {
    StatBaseValueChangeHandler(targetStat, (_: string, v: real) => if v < 0.0 then 0.0 else v)
  }

  /** The clamp handler maps every request to the nearest non-negative value. */
  lemma ClampNonNegativeResolves(targetStat: string, v: real)
    ensures var r := HandleValueChange(ClampNonNegative(targetStat), targetStat, v);
      r >= 0.0 && (v >= 0.0 ==> r == v) && (v < 0.0 ==> r == 0.0)
  {
  }
}
