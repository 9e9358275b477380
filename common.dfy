/** Shared vocabulary: optional values, the exceptions the Python code raises,
    and the dimension names the grid uses. */
module Common {

  datatype Option<+T> = None | Some(value: T)

  /** A named dimension of a field.  The three named ones stand for the
      longitude, latitude and full-level (hybrid "eta") dimensions of the grid. */
  datatype Dim = Lon | Lat | Pfull | Other(name: string)

  /** Why a `ValueError` was raised. */
  datatype Reason =
    | SpacingBelowOne
    | ArrayTooShort(length: nat, needed: int)
    | DimNotFound(dim: Option<Dim>, dims: seq<Dim>)  // no usable dimension given for a coordinate
    | NoSuchDim(missing: Dim)                         // positional selection along a dimension the array lacks
    | BadSide(side: string)

  /** The exceptions raised by the modelled code. */
  datatype Error =
    | ValueError(reason: Reason)
    | NotImplementedError
    | AttributeError(owner: string, attr: string)
    | TypeError(detail: string)
    | KeyError(key: Dim)

  /** A computation that either returns a value or raises an exception. */
  datatype Result<+T> = Success(value: T) | Failure(error: Error) {
    predicate IsFailure() { Failure? }

    function PropagateFailure<U>(): Result<U>
      requires Failure?
    {
      Failure(error)
    }

    function Extract(): T
      requires Success?
    {
      value
    }
  }
}
