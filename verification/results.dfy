/** The error kinds the pipeline raises, and the Result type every fallible
    operation returns in place of a Python exception. */
module Results {

  /** One constructor per exception the pipeline can raise. */
  datatype Error =
    | UnsupportedFormat(path: string)   // ValueError from the suffix dispatch
    | FileNotFound(path: string)        // the reader finds nothing at the path
    | UnreadableFile(path: string)      // the reader finds a file of the other format
    | MissingColumn(column: string)     // KeyError on datos['price']
    | NotNumericColumn(column: string)  // TypeError from nlargest on a text column
    | NotNumeric(text: string)          // ValueError from astype(float)
    | FetchFailed(url: string)          // Exception from a non-200 response
    | MissingField(tag: string, cls: string)  // AttributeError: find returned None

  datatype Result<+T> = Ok(value: T) | Err(error: Error) {
    predicate IsFailure() { Err? }

    function PropagateFailure<U>(): Result<U>
      requires Err?
    {
      Err(error)
    }

    function Extract(): T
      requires Ok?
    {
      value
    }
  }
}
