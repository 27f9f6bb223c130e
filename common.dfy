/** Values shared by every part of the model: optional values, the exceptions the
    service can raise, and a failure-compatible result type for code that raises. */
module Common {

  datatype Option<+T> = None | Some(value: T) {
    predicate IsFailure() { None? }

    function PropagateFailure<U>(): Option<U>
      requires None?
    {
      None
    }

    function Extract(): T
      requires Some?
    {
      value
    }
  }

  /** The exceptions the modelled code raises or lets escape: named after the
      Python exception where the code itself raises it, and after the failing
      call for library and OS errors (whose Python class is not modelled). */
  datatype Fault =
    | ValueError(key: string, text: string)   // int()/float() of a form field
    | AssertionError(path: string)           // `assert os.path.isfile(path)`
    | PageCountError(path: string)           // pdfinfo cannot read the document
    | OpenError(path: string)                // PIL cannot open a page image
    | IndexError                             // `images_to_pdf[0]` on an empty list
    | SaveError(path: string)                // PIL cannot write the assembled document
    | RemoveError(path: string)              // os.remove on a path that is not a file
    | RmdirError(path: string)               // os.rmdir on a missing or non-empty directory
    | KeyError(key: string)                  // `request_form[key]` for an absent key
    | SplitError(text: string)               // shlex.split cannot tokenise its input

  /** The outcome of code that may raise: a value, or the exception it raised. */
  datatype Result<+T> = Ok(value: T) | Raised(fault: Fault) {
    predicate IsFailure() { Raised? }

    function PropagateFailure<U>(): Result<U>
      requires Raised?
    {
      Raised(fault)
    }

    function Extract(): T
      requires Ok?
    {
      value
    }
  }
}
