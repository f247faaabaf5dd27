/** Failure-carrying wrappers shared by the model, and the ways the
    component fails. Every failure in the component is a JavaScript
    TypeError raised by reading a property of `null` or `undefined`;
    the constructors of `Error` name which read it was. */
module Outcomes {

  datatype Option<+T> = None | Some(value: T)

  datatype Result<+R, +E> = Ok(value: R) | Err(error: E)

  datatype Outcome<+E> = Pass | Fail(error: E)

  datatype Error =
    /** `results` is still `null`: no page has been merged yet. */
    | ResultsNull
    /** `results[key]` is `undefined`, so reading its `hits` throws. */
    | NoEntry(key: string)
    /** `SORTS[name]` is `undefined`, so calling it throws. */
    | UnknownSortKey(name: string)
}
