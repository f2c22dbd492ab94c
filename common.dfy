/** Values, optional values, results and the error kinds raised by the backend. */
module Common {

  datatype Option<T> = None | Some(value: T) {
    /** `dict.get(key, default)` style access. */
    function GetOr(default: T): T {
      if Some? then value else default
    }
  }

  /** A column value as the relational store holds it. Dates and times are integers (seconds),
      a Float column holds a `VReal`. A value is not checked against its column's SQL type: the
      store accepts any value that is not NULL where NULL is not allowed. */
  datatype Value = VNull | VBool(b: bool) | VInt(i: int) | VReal(r: real) | VStr(s: string)

  /** Every way a request can fail. */
  datatype Error =
    | HttpError(status: int, detail: string)  // fastapi.HTTPException
    | NoResultFound                           // `.one()` found no row
    | MultipleResultsFound                    // `.one()` / `.one_or_none()` found more than one row
    | IntegrityError(uniqueViolation: bool)   // a constraint failed at flush; true when a unique key clashed
    | InvalidKeyword                          // a model constructor got a keyword that is not one of its columns
    | NoSuchAttribute                         // `getattr` on an attribute the model does not have
    | WrongType                               // a list assigned to a column, or a scalar to a list
    | AuthenticationFailed(message: string)   // users.AuthenticationException
    | IndexError                              // a list indexed past its end

  datatype Result<T> = Ok(value: T) | Err(error: Error)

  /** A request handler that returns nothing (status 204, or a missing `return`). */
  datatype Outcome = Done | Failed(error: Error)
}
