/** `Coord`: a labelled array together with one of its dimensions, checked
    to be there, and a flag saying whether that dimension wraps around. */
module Coordinates {
  import opened Common
  import opened Labelled

  /** `_prep_dim` as written: a requested dimension the array has comes back
      unchanged; anything else, `None` included, raises a `ValueError` that
      names the dimension and the array's dimensions.  The branch meant to
      pick the only dimension of a one-dimensional array when none is
      requested compares the shape with `1` and never fires. */
  function PrepDim(arr: Array, dim: Option<Dim>): (r: Result<Dim>)
    ensures r.Success? <==> dim.Some? && dim.value in arr.dims
    ensures r.Success? ==> r.value == dim.value
    ensures r.Failure? ==> r.error == ValueError(DimNotFound(dim, arr.dims))
  {
    if dim.Some? && dim.value in arr.dims then Success(dim.value)
    // `arr.shape == 1` compares a tuple with an integer, which Python
    // never finds equal: the condition is always false.
    else if dim.None? && false then
      match FirstDim(arr.dims)
      case Some(d) => Success(d)
      case None => Failure(ValueError(DimNotFound(dim, arr.dims)))
    else Failure(ValueError(DimNotFound(dim, arr.dims)))
  }

  /** `dims[0]`, when there is one. */
  function FirstDim(dims: seq<Dim>): Option<Dim> {
    if |dims| > 0 then Some(dims[0]) else None
  }

  /** `_prep_dim` as its error message and the surrounding design intend it:
      with no dimension requested, a one-dimensional array's only dimension
      is taken. */
  function PrepDimAsIntended(arr: Array, dim: Option<Dim>): (r: Result<Dim>)
    ensures r.Success? <==> (dim.Some? && dim.value in arr.dims) || (dim.None? && |arr.shape| == 1 && |arr.dims| == 1)
    ensures r.Success? ==> r.value in arr.dims
    ensures r.Success? && dim.Some? ==> r.value == dim.value
    ensures r.Failure? ==> r.error == ValueError(DimNotFound(dim, arr.dims))
  {
    if dim.Some? && dim.value in arr.dims then Success(dim.value)
    else if dim.None? && |arr.shape| == 1 && |arr.dims| == 1 then Success(arr.dims[0])
    else Failure(ValueError(DimNotFound(dim, arr.dims)))
  }

  /** A coordinate: the wrapped array, its validated dimension, and whether
      that dimension is cyclic. */
  datatype Coord = Coord(arr: Array, dim: Dim, cyclic: bool) {

    /** `coord[key]`: whatever indexing the wrapped array gives. */
    function GetItem(key: Dim): (r: Result<Field>)
      ensures r == arr.Get(key)
    {
      arr.Get(key)
    }

    /** Left to the concrete coordinates: always `NotImplementedError`. */
    function DerivPrefactor(): (r: Result<Field>)
      ensures r == Failure(NotImplementedError)
    {
      Failure(NotImplementedError)
    }

    function DerivFactor(): (r: Result<Field>)
      ensures r == Failure(NotImplementedError)
    {
      Failure(NotImplementedError)
    }
  }

  /** `Coord(arr, dim=None, cyclic=False)`: stores the array and the flag and
      validates the dimension, raising what `_prep_dim` raises; built on
      the corrected `_prep_dim`, so a one-dimensional array needs no
      dimension named. */
  function NewCoord(arr: Array, dim: Option<Dim> := None, cyclic: bool := false): (r: Result<Coord>)
    ensures r.Success? <==> (dim.Some? && dim.value in arr.dims) || (dim.None? && |arr.shape| == 1 && |arr.dims| == 1)
    ensures r.Success? ==> r.value.arr == arr && r.value.cyclic == cyclic && r.value.dim in arr.dims
    ensures r.Success? && dim.Some? ==> r.value.dim == dim.value
    ensures r.Failure? ==> r.error == ValueError(DimNotFound(dim, arr.dims))
  {
    var d :- PrepDimAsIntended(arr, dim);
    Success(Coord(arr, d, cyclic))
  }

  /** Every dimension of a well-formed array has a coordinate of its own. */
  predicate WellFormed(arr: Array) {
    |arr.shape| == |arr.dims| && forall d :: d in arr.dims ==> d in arr.coords
  }

  /** A coordinate built on a well-formed array can always be indexed by
      its own dimension, and gives that dimension's coordinate. */
  lemma OwnDimIndexes(arr: Array, dim: Option<Dim>, cyclic: bool)
    requires WellFormed(arr) && NewCoord(arr, dim, cyclic).Success?
    ensures var c := NewCoord(arr, dim, cyclic).value;
      c.GetItem(c.dim) == Success(arr.coords[c.dim])
  {
  }

  /** As written, no array lets `None` through, not even a one-dimensional
      one; as intended, a one-dimensional array does. */
  lemma SingletonNeverInferred(arr: Array)
    requires |arr.shape| == 1 && |arr.dims| == 1
    ensures PrepDim(arr, None) == Failure(ValueError(DimNotFound(None, arr.dims)))
    ensures PrepDimAsIntended(arr, None) == Success(arr.dims[0])
  {
  }
}
