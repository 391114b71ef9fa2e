/** Option and Result, and the exceptions the core raises. */
module Wrappers {

  datatype Option<T> = None | Some(value: T)

  datatype Result<T, E> = Ok(value: T) | Err(error: E)
}

module Errors {

  /** The exceptions the core raises or lets escape. The first, second and
      fourth stand for a plain Exception raised with the message noted
      beside them: subseq/Exceptions.py declares classes named like the first
      two, but the core does not raise them. ReError is re.error, and the
      rest are the Python built-in exceptions of the same names. */
  datatype Error =
      /** A pair absent from the table: Exception 'Bad pair in substitution
          matrix' in subseq/ss_SubMatrix.py and subseq/ss_LA_SEARCH.py,
          Exception 'Error number: 1, bad key (a, b)' in subseq/SubMatrix.py */
    | InvalidPairError(a: string, b: string)
    | InvalidMatrixFormatError                 // Exception 'Improper entry number in row'
    | ReError                                  // re.error: re.compile refused the pattern
    | BadKeyError                              // Exception '... bad key ...': a tuple key that does not walk the nested dicts
    | IndexError
    | KeyError
    | ValueError
    | TypeError
    | AttributeError
    | ZeroDivisionError
}
