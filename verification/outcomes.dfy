/** Outcome datatypes shared by the store collection, the nearby query and the
    request handlers. Every failure the handlers can report is a tagged value
    here rather than an exception or an HTTP status. */
module Outcomes {

  /** A value that may be absent: the result of parsing an optional query
      parameter as a number. */
  datatype Option<+T> = None | Some(value: T)

  /** The two client errors of the core: a positional index that addresses no
      record, and a nearby query with a coordinate that is absent or not a
      number. */
  datatype Error = OutOfRange | MissingCoords

  /** Either the value an operation produced or the error it reported. */
  datatype Result<+T> = Ok(value: T) | Err(error: Error)
}
