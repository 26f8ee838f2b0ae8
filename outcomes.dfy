/** Values shared by every component of the measurement tool: an optional value,
    the ways a run can end early, and a value-or-failure outcome. */
module Outcomes {

  datatype Option<T> = None | Some(value: T)

  /** Every way in which a run of measure.py stops before printing measurements. */
  datatype Failure =
    | UnknownMetrics(names: seq<string>)  // the exception raised after validating the requested names
    | ChildExit(code: int)                // sys.exit with the profiled command's non-zero return code
    | BadCounterValue(text: string)       // float() refuses the text of a counter-value
    | MissingCounter(key: string)         // the KeyError of the userspace-variant lookup
    | MissingField(name: string)          // getattr on a field the resource-usage snapshot lacks

  /** The result of a step that either produces a value or ends the run. */
  datatype Outcome<T> = Ok(value: T) | Fail(failure: Failure)
}
