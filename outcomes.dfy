/** The failure outcomes of the normaliser: the Python exceptions that escape
    `transliterate`, plus the optional value of a lookup or a conversion. */
module Outcomes {

  datatype Option<T> = None | Some(value: T)

  datatype Error =
    | KeyError(key: string)          // a table lookup missed
    | ValueError(literal: string)    // int() refused a literal
    | IndexError                     // a list was indexed past its end
    | AttributeError(name: string)   // a configuration attribute does not exist
    | ConversionError(literal: string) // the numeral converter refused a literal

  /** Either the value or the exception that aborted the call. */
  datatype Result<T> = Ok(value: T) | Err(error: Error) {
    predicate IsFailure() { Err? }

    function PropagateFailure<U>(): Result<U>
      requires Err?
    {
      Err(error)
    }

    function Extract(): T
      requires Ok?
    {
      value
    }
  }
}
