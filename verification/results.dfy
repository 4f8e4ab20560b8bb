/** Optional values and success-or-error results shared by every module. */
module Results {

  /** A value that may be absent: JavaScript's `undefined`/`null`, or an unset document path. */
  datatype Option<+T> = None | Some(value: T)

  /** The outcome of an operation that can fail with an error of type E. */
  datatype Result<+T, +E> = Ok(value: T) | Err(error: E)

  /** One failed field check: the path or parameter it concerns and its fixed message. */
  datatype FieldError = FieldError(path: seq<char>, message: seq<char>)

  /** One check of one field: nothing when it holds, otherwise one error at that path. */
  function Check(path: seq<char>, ok: bool, message: seq<char>): (errs: seq<FieldError>)
    ensures ok <==> errs == []
    ensures !ok ==> errs == [FieldError(path, message)]
  {
    if ok then [] else [FieldError(path, message)]
  }
}
