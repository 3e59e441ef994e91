// Option and Result values used across the model for Python's None and for
// exceptions or error exits.
module Wrappers {
  datatype Option<T> = None | Some(value: T) {
    predicate IsSome() { this.Some? }
  }

  datatype Result<T, E> = Ok(value: T) | Err(error: E) {
    predicate IsOk() { this.Ok? }
  }

  /** The Python exceptions and process exits the modelled code ends in. */
  datatype Exc =
    | ValueError
    | TypeError
    | IndexError
    | KeyError(key: string)
    | ZeroDivisionError
    | AssertionError
    | UnboundLocalError
    | Raised(msg: string)     // raise Exception(msg)
    | Exit(code: int)         // exit(code) / sys.exit(code)
    | AttributeError          // an attribute of None looked up
    | CalledProcessError(cmd: string)   // subprocess.check_call of a failing command
}
