/** Results of the operations of the model.

    The Python code reports failure by raising exceptions.  Here every
    operation that can raise returns a `Result`, whose `Err` case says which
    exception escapes:
    - `NotFound` and `OperationFailed` are the `wok.exception` classes, with
      their message code and the detail the code attaches;
    - `Raised` is any other Python exception the code does not catch
      (`IndexError`, `KeyError`, `ValueError`, `AttributeError`, ...),
      named by its class.
 */
module Outcomes {

  datatype Error =
    | NotFound(code: string, detail: string)
    | OperationFailed(code: string, detail: string)
    | Raised(pyClass: string)

  datatype Result<+T> = Ok(value: T) | Err(error: Error) {
    predicate IsFailure() { Err? }

    function PropagateFailure<U>(): Result<U>
      requires Err?
    {
      Err(error)
    }

    function Extract(): T
      requires Ok?
    {
      value
    }
  }

  datatype Option<+T> = None | Some(value: T)

  /** What `wok.utils.run_command` hands back: standard output, standard
      error and the exit code of a finished command. */
  datatype CommandOutput = CommandOutput(out: string, err: string, rc: int)
}
