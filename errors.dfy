/** The exceptions the engine raises, and the result types that carry them. */
module Errors {
  import opened States
  import opened Values

  datatype Error =
    | UnsupportedMatcher            // TypeError "Unsupported input matcher type"
    | Unhashable                    // TypeError "unhashable type: 'list'" from a set of matchers
    | InputMustBeString             // TypeError "Input must be a string"
    | InputMustBeList               // TypeError "Input must be a list"
    | SplitNotImplemented           // NotImplementedError of the base splitter
    | NoOutputMapping               // NotImplementedError "Output mapping is not defined for this FSM."
    | NoTransition(state: State, symbol: Value)      // ValueError "No transition for {state} on '{symbol}'"
    | Raised(kind: string, message: string)          // an exception type stored as an output, raised

  datatype Option<+T> = None | Some(value: T)

  datatype Result<+T> = Ok(value: T) | Err(error: Error)

  datatype Outcome = Pass | Fail(error: Error)
}
