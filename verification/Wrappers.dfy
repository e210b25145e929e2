/** Result types shared by every module. */
module Wrappers {

  datatype Option<+T> = None | Some(value: T) {
    predicate IsFailure() { None? }

    function PropagateFailure<U>(): Option<U>
      requires None?
    {
      None
    }

    function Extract(): T
      requires Some?
    {
      value
    }
  }

  /**
   * How a call of the verifier ends. `Err` is an `AitpError` with its wire code;
   * `Crash` is any other exception that leaves the function (`ValueError`, `KeyError`, ...).
   */
  datatype Outcome<+T> = Ok(value: T) | Err(code: string) | Crash(kind: string) {
    predicate IsFailure() { !Ok? }

    function PropagateFailure<U>(): Outcome<U>
      requires !Ok?
    {
      match this
      case Err(code) => Err(code)
      case Crash(kind) => Crash(kind)
    }

    function Extract(): T
      requires Ok?
    {
      value
    }
  }

  /** `raise AitpError(code)` unless `condition` holds. */
  function Need(condition: bool, code: string): (r: Outcome<()>)
  {
    if condition then Ok(()) else Err(code)
  }

  /** The failure of a partial operation turned into the caller's own code. */
  function OrErr<T>(o: Option<T>, code: string): (r: Outcome<T>)
  {
    match o
    case None => Err(code)
    case Some(v) => Ok(v)
  }
}
