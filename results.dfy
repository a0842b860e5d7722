/** Failure-carrying values shared by the model. A Python call that raises is
    modelled as a `Failure`/`Fail` value, a call that returns normally as
    `Success`/`Pass`; an optional argument (`None` in Python) as an `Option`. */
module Results {

  datatype Option<+T> = None | Some(value: T)

  datatype Result<+R, +E> = Success(value: R) | Failure(error: E)

  datatype Outcome<+E> = Pass | Fail(error: E)
}
