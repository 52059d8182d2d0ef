/** Failure-carrying values shared by every handler model. */
module Outcomes {

  datatype Option<+T> = None | Some(value: T)

  /** The exceptions the handlers raise or let escape, by Python class. */
  datatype Error =
    | ValueError      // rejected input shape or failed validation
    | RuntimeError    // the catch-all raised by the article handlers
    | TypeError       // iterating a value that is not iterable
    | NameError       // a module used without being imported
    | AttributeError  // `.text` taken on a feed child that is absent
    | FetchError      // the HTTP request or the decoding of its body failed
    | DecodeError     // a body that is not UTF-8 (UnicodeDecodeError), or one of the few inputs `csv` rejects (csv.Error)

  datatype Result<+T> = Ok(value: T) | Err(error: Error)
}
