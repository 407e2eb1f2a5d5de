/** Outcome types shared by every module of the model. */
module Wrappers {

  datatype Option<T> = None | Some(value: T)
  {
    /** The value, or `default` when there is none. */
    function UnwrapOr(default: T): T
    {
      if Some? then value else default
    }
  }

  /** The Python exception a step of the tools raises, when it raises one. */
  datatype Raised =
    | KeyError      // a dict lookup of a missing key
    | IndexError    // a list or string index past the end
    | AttributeError // an attribute read through None
    | TypeError     // an ordering comparison against None
    | ValueError    // `int()` of text that is not a decimal integer

  datatype Result<T> = Ok(value: T) | Err(error: Raised)
}
