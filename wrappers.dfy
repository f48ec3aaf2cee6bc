/** Option and Result: an absent value, and the outcome of a parse that may fail.
    A thrown ParseException is modelled as `Failure`; the parser's error text
    and error categories are not part of this model. */
module Wrappers {

  datatype Option<+T> = None | Some(value: T)

  datatype Result<+T> = Success(value: T) | Failure
}
