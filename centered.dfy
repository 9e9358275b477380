/** The `CenDiff` differencer: centered differences of the array it was built
    on, over a chosen spacing, with a policy for filling the two edge cells
    the stencil cannot reach. */
module Centered {
  import opened Common
  import opened Labelled

  /** The values the `fill_edge` argument is given: a boolean, a string, or
      a tuple of strings. */
  datatype FillEdge = Bool(b: bool) | Str(s: string) | Tuple(items: seq<string>)

  /** `fill_edge in ('left', 'both')`: only the two strings are members; in
      particular `True` is not. */
  predicate FillsLeft(fill: FillEdge) {
    fill == Str("left") || fill == Str("both")
  }

  /** `fill_edge == ('right', 'both')`: only that very tuple is equal to it. */
  predicate FillsRight(fill: FillEdge) {
    fill == Tuple(["right", "both"])
  }

  /** `xr.concat` of two computed pieces: the first exception raised wins. */
  function Concat(a: Result<Field>, b: Result<Field>): (r: Result<Field>)
    ensures r.Success? <==> a.Success? && b.Success?
    ensures r.Success? ==> r.value == a.value + b.value
    ensures a.Failure? ==> r == a
  {
    if a.Failure? then a else if b.Failure? then b else Success(a.value + b.value)
  }

  /** A one-sided differencer bound to an array: `FwdDiff(arr, dim).diff`
      labels each difference with its lower sample, `BwdDiff(arr, dim).diff`
      with its upper one. */
  datatype OneSided = FwdDiff(arr: Field) | BwdDiff(arr: Field) {

    function Side(): Label {
      if FwdDiff? then Lower else Upper
    }

    /** The array differenced: the one passed in, else the bound one. */
    function FindArr(arr': Option<Field>): Field {
      if arr'.Some? then arr'.value else arr
    }

    /** Difference over `spacing` steps; the spacing must be at least one and
        the array must hold more than `spacing` samples. */
    function Diff(arr': Option<Field>, spacing: int): (r: Result<Field>)
      ensures var a := FindArr(arr');
        && (spacing < 1 ==> r == Failure(ValueError(SpacingBelowOne)))
        && (1 <= spacing && |a| <= spacing ==> r == Failure(ValueError(ArrayTooShort(|a|, spacing + 1))))
        && (1 <= spacing < |a| ==> r == Success(StepDiff(a, spacing, Side())))
    {
      var a := FindArr(arr');
      if spacing < 1 then Failure(ValueError(SpacingBelowOne))
      else if |a| < spacing + 1 then Failure(ValueError(ArrayTooShort(|a|, spacing + 1)))
      else Success(StepDiff(a, spacing, Side()))
    }
  }

  /** The centered stencil at reach `s`: at each label `i` that has `s`
      samples on either side, `a[i + s] - a[i - s]`, with the coordinate of `i`. */
  function Stencil(a: Field, s: nat): Field
  {
    if |a| < 2 * s then []
    else seq(|a| - 2 * s, k requires 0 <= k < |a| - 2 * s => Cell(a[s + k].pos, a[s + k].x, a[k + 2 * s].v - a[k].v))
  }

  lemma StencilAt(a: Field, s: nat, k: int)
    requires 0 <= k < |a| - 2 * s
    ensures |Stencil(a, s)| == |a| - 2 * s
    ensures Stencil(a, s)[k] == Cell(a[s + k].pos, a[s + k].x, a[k + 2 * s].v - a[k].v)
  {
  }

  /** On an array labelled by its indices, the stencil runs from label
      `s` to label `n - 1 - s`. */
  lemma StencilEnds(a: Field, s: nat)
    requires Indexed(a) && 2 * s + 1 <= |a|
    ensures var t := Stencil(a, s);
      |t| == |a| - 2 * s && t[0].pos == s && t[|t| - 1].pos == |a| - 1 - s
  {
    StencilAt(a, s, 0);
    StencilAt(a, s, |a| - 2 * s - 1);
  }

  /** A centered differencer: the array, its dimension, and the backward and
      forward differencers bound to the same array. */
  datatype CenDiff = CenDiff(arr: Field, dim: Dim, diffBwd: OneSided, diffFwd: OneSided) {

    /** The two one-sided differencers are the backward and the forward one,
        both bound to the differencer's array. */
    predicate Valid() {
      diffBwd == BwdDiff(arr) && diffFwd == FwdDiff(arr)
    }

    function FindArr(arr': Option<Field>): Field {
      if arr'.Some? then arr'.value else arr
    }

    /** `_diff_edge`: the one-sided difference of the first (`"left"`,
        forward) or the last (`"right"`, backward) `spacing + 1` samples of
        the array.  Any other side raises, but not the intended `ValueError`:
        `.format` is looked up on the exception object, which has none. */
    function DiffEdge(spacing: int, side: string): (r: Result<Field>)
      requires Valid()
      ensures side != "left" && side != "right" ==> r == Failure(AttributeError("ValueError", "format"))
      ensures (side == "left" || side == "right") && 0 <= spacing && |arr| < 2 ==>
        r == Failure(ValueError(ArrayTooShort(|arr|, 2)))
    {
      if side == "left" then
        diffFwd.Diff(Some(ISel(arr, 0, Some(spacing + 1))), 1)
      else if side == "right" then
        diffBwd.Diff(Some(ISel(arr, -(spacing + 1), None)), 1)
      else
        Failure(AttributeError("ValueError", "format"))
    }

    /** `diff`: checks the spacing and that the array has room for the
        stencil of width `2 * spacing` plus one, then adds the forward
        difference of the array without its first `spacing` samples to the
        backward difference of the array without its last `spacing` samples
        and fills the edges `fill` asks for: the left one for `"left"` and
        `"both"`, the right one only for the tuple `("right", "both")`. */
    function Diff(arr': Option<Field>, spacing: int, fill: FillEdge): (r: Result<Field>)
      requires Valid()
      ensures spacing < 1 ==> r == Failure(ValueError(SpacingBelowOne))
      ensures 1 <= spacing && |FindArr(arr')| < 2 * spacing + 1 ==>
        r == Failure(ValueError(ArrayTooShort(|FindArr(arr')|, 2 * spacing + 1)))
      ensures r.Success? <==> 1 <= spacing && |FindArr(arr')| >= 2 * spacing + 1 && |arr| >= 2 * spacing + 1
    {
      DiffFilling(arr', spacing, FillsLeft(fill), FillsRight(fill))
    }

    /** The body of `diff`, with the decision which edges to fill already taken. */
    function DiffFilling(arr': Option<Field>, spacing: int, fillLeft: bool, fillRight: bool): (r: Result<Field>)
      requires Valid()
      ensures spacing < 1 ==> r == Failure(ValueError(SpacingBelowOne))
      ensures 1 <= spacing && |FindArr(arr')| < 2 * spacing + 1 ==>
        r == Failure(ValueError(ArrayTooShort(|FindArr(arr')|, 2 * spacing + 1)))
      ensures r.Success? <==> 1 <= spacing && |FindArr(arr')| >= 2 * spacing + 1 && |arr| >= 2 * spacing + 1
    {
      var a := FindArr(arr');
      if spacing < 1 then Failure(ValueError(SpacingBelowOne))
      else if |a| < 2 * spacing + 1 then Failure(ValueError(ArrayTooShort(|a|, 2 * spacing + 1)))
      else
        var interior :- Interior(spacing);
        FillEdges(interior, fillLeft, fillRight)
    }

    /** The forward difference of the array without its first `spacing`
        samples plus the backward difference of the array without its last
        `spacing` samples. */
    function Interior(spacing: int): (r: Result<Field>)
      requires Valid()
      ensures spacing < 1 ==> r == Failure(ValueError(SpacingBelowOne))
      ensures r.Success? <==> 1 <= spacing && 2 * spacing < |arr|
    {
      var left := ISel(arr, 0, Some(-spacing));
      var right := ISel(arr, spacing, None);
      var fwd, bwd := diffFwd.Diff(Some(right), spacing), diffBwd.Diff(Some(left), spacing);
      if fwd.Failure? then fwd else if bwd.Failure? then bwd else Success(Add(fwd.value, bwd.value))
    }

    /** The interior, preceded by the left edge and followed by the right
        edge as asked. */
    function FillEdges(interior: Field, fillLeft: bool, fillRight: bool): (r: Result<Field>)
      requires Valid()
      ensures r.Success? <==> (!fillLeft && !fillRight) || 2 <= |arr|
      ensures var left := if fillLeft then 1 else 0;
        r.Success? ==>
          && |r.value| == left + |interior| + (if fillRight then 1 else 0)
          && r.value[left..left + |interior|] == interior
    {
      var withLeft := if fillLeft then Concat(DiffEdge(1, "left"), Success(interior)) else Success(interior);
      if fillRight then Concat(withLeft, DiffEdge(1, "right")) else withLeft
    }

    /** `diff` as its documentation describes it: `True` and `"both"` fill
        both edges, `"left"` and `"right"` one each. */
    function DiffAsIntended(arr': Option<Field>, spacing: int, fill: FillEdge): (r: Result<Field>)
      requires Valid()
      ensures r.Success? <==> 1 <= spacing && |FindArr(arr')| >= 2 * spacing + 1 && |arr| >= 2 * spacing + 1
    {
      DiffFilling(arr', spacing, IntendsLeft(fill), IntendsRight(fill))
    }

    /** `_diff_edge` raising the `ValueError` that names the bad side, as
        its message was meant to. */
    function DiffEdgeAsIntended(spacing: int, side: string): (r: Result<Field>)
      requires Valid()
      ensures side != "left" && side != "right" ==> r == Failure(ValueError(BadSide(side)))
      ensures side == "left" || side == "right" ==> r == DiffEdge(spacing, side)
    {
      if side == "left" || side == "right" then DiffEdge(spacing, side)
      else Failure(ValueError(BadSide(side)))
    }
  }

  /** The edges the documentation of `diff` promises to fill. */
  predicate IntendsLeft(fill: FillEdge) {
    fill == Bool(true) || fill == Str("left") || fill == Str("both")
  }

  predicate IntendsRight(fill: FillEdge) {
    fill == Bool(true) || fill == Str("right") || fill == Str("both")
  }

  /** `CenDiff(arr, dim)`: binds the array and its two one-sided differencers. */
  function Init(arr: Field, dim: Dim): (c: CenDiff)
    ensures c.Valid() && c.arr == arr && c.dim == dim
  {
    CenDiff(arr, dim, BwdDiff(arr), FwdDiff(arr))
  }

  /** The sum of the two shifted one-sided differences is the centered
      stencil: at label `i`, `a[i + s] - a[i - s]`. */
  lemma InteriorIsStencil(a: Field, s: int)
    requires Indexed(a) && 1 <= s && 2 * s + 1 <= |a|
    ensures Add(StepDiff(ISel(a, s, None), s, Lower), StepDiff(ISel(a, 0, Some(-s)), s, Upper)) == Stencil(a, s)
  {
    var r := Add(StepDiff(ISel(a, s, None), s, Lower), StepDiff(ISel(a, 0, Some(-s)), s, Upper));
    var t := Stencil(a, s);
    InteriorAt(a, s, 0);
    forall k | 0 <= k < |r| ensures r[k] == t[k] {
      InteriorAt(a, s, k);
    }
  }

  lemma InteriorAt(a: Field, s: int, k: int)
    requires Indexed(a) && 1 <= s && 2 * s + 1 <= |a| && 0 <= k < |a| - 2 * s
    ensures var sum := Add(StepDiff(ISel(a, s, None), s, Lower), StepDiff(ISel(a, 0, Some(-s)), s, Upper));
      |sum| == |Stencil(a, s)| && sum[k] == Stencil(a, s)[k]
  {
    HalvesAt(a, s, k);
    StencilAt(a, s, k);
  }

  /** The two halves `diff` cuts, as slices. */
  lemma ISelHalves(a: Field, s: int)
    requires 1 <= s <= |a|
    ensures ISel(a, s, None) == a[s..] && ISel(a, 0, Some(-s)) == a[..|a| - s]
  {
  }

  lemma HalvesAt(a: Field, s: int, k: int)
    requires Indexed(a) && 1 <= s && 2 * s + 1 <= |a| && 0 <= k < |a| - 2 * s
    ensures var sum := Add(StepDiff(ISel(a, s, None), s, Lower), StepDiff(ISel(a, 0, Some(-s)), s, Upper));
      |sum| == |a| - 2 * s && sum[k] == Cell(a[s + k].pos, a[s + k].x, a[k + 2 * s].v - a[k].v)
  {
    ISelHalves(a, s);
    var right, left := a[s..], a[..|a| - s];
    var fwd, bwd := StepDiff(right, s, Lower), StepDiff(left, s, Upper);
    StepDiffConsecutive(right, s, s, Lower);
    StepDiffConsecutive(left, 0, s, Upper);
    JoinAlignedAt(fwd, bwd, s, Plus, k);
    assert fwd[k].v == a[k + 2 * s].v - a[s + k].v;
    assert bwd[k].v == a[s + k].v - a[k].v;
    assert a[s + k].pos == s + k;
  }

  /** The left edge: forward differences of the first `spacing + 1` samples,
      each labelled with its lower sample. */
  lemma DiffEdgeLeft(c: CenDiff, spacing: int)
    requires c.Valid() && 1 <= spacing < |c.arr|
    ensures var r := c.DiffEdge(spacing, "left");
      && r.Success? && |r.value| == spacing
      && forall k :: 0 <= k < spacing ==> r.value[k] == Cell(c.arr[k].pos, c.arr[k].x, c.arr[k + 1].v - c.arr[k].v)
  {
    var e := ISel(c.arr, 0, Some(spacing + 1));
    assert e == c.arr[..spacing + 1];
    assert c.DiffEdge(spacing, "left") == Success(StepDiff(e, 1, Lower));
  }

  /** The right edge: backward differences of the last `spacing + 1`
      samples, each labelled with its upper sample. */
  lemma DiffEdgeRight(c: CenDiff, spacing: int)
    requires c.Valid() && 1 <= spacing < |c.arr|
    ensures var r := c.DiffEdge(spacing, "right");
      var lo := |c.arr| - spacing - 1;
      && r.Success? && |r.value| == spacing
      && forall k :: 0 <= k < spacing ==>
           r.value[k] == Cell(c.arr[lo + k + 1].pos, c.arr[lo + k + 1].x, c.arr[lo + k + 1].v - c.arr[lo + k].v)
  {
    var e := ISel(c.arr, -(spacing + 1), None);
    assert e == c.arr[|c.arr| - spacing - 1..];
    assert c.DiffEdge(spacing, "right") == Success(StepDiff(e, 1, Upper));
  }

  /** The one-cell edges `diff` fills: `a[1] - a[0]` at label 0 and
      `a[n-1] - a[n-2]` at label `n-1`. */
  function LeftEdge(a: Field): Field
    requires |a| >= 2
  {
    [Cell(0, a[0].x, a[1].v - a[0].v)]
  }

  function RightEdge(a: Field): Field
    requires |a| >= 2
  {
    [Cell(|a| - 1, a[|a| - 1].x, a[|a| - 1].v - a[|a| - 2].v)]
  }

  /** Whenever `diff` succeeds on an array labelled by its indices, its
      result is the centered stencil, preceded by the left edge cell and
      followed by the right edge cell exactly when those are asked for. */
  lemma DiffFillingIsStencil(c: CenDiff, arr': Option<Field>, s: int, fillLeft: bool, fillRight: bool)
    requires c.Valid() && Indexed(c.arr)
    requires 1 <= s && 2 * s + 1 <= |c.FindArr(arr')| && 2 * s + 1 <= |c.arr|
    ensures c.DiffFilling(arr', s, fillLeft, fillRight) ==
      Success((if fillLeft then LeftEdge(c.arr) else []) + Stencil(c.arr, s) + (if fillRight then RightEdge(c.arr) else []))
  {
    InteriorOfDiff(c, s);
    assert c.DiffFilling(arr', s, fillLeft, fillRight) == c.FillEdges(Stencil(c.arr, s), fillLeft, fillRight);
    FilledEdges(c, Stencil(c.arr, s), fillLeft, fillRight);
  }

  /** Filling puts the one-cell edges around the interior. */
  lemma FilledEdges(c: CenDiff, interior: Field, fillLeft: bool, fillRight: bool)
    requires c.Valid() && Indexed(c.arr) && |c.arr| >= 2
    ensures c.FillEdges(interior, fillLeft, fillRight) ==
      Success((if fillLeft then LeftEdge(c.arr) else []) + interior + (if fillRight then RightEdge(c.arr) else []))
  {
    EdgeCells(c);
    assert [] + interior == interior;
    var withLeft := (if fillLeft then LeftEdge(c.arr) else []) + interior;
    assert withLeft + [] == withLeft;
  }

  /** The two one-sided differences `diff` adds succeed, and their sum is
      the centered stencil. */
  lemma InteriorOfDiff(c: CenDiff, s: int)
    requires c.Valid() && Indexed(c.arr) && 1 <= s && 2 * s + 1 <= |c.arr|
    ensures c.Interior(s) == Success(Stencil(c.arr, s))
  {
    InteriorOfHalves(c, s);
    InteriorIsStencil(c.arr, s);
  }

  lemma InteriorOfHalves(c: CenDiff, s: int)
    requires c.Valid() && 1 <= s && 2 * s + 1 <= |c.arr|
    ensures c.Interior(s) == Success(Add(StepDiff(ISel(c.arr, s, None), s, Lower), StepDiff(ISel(c.arr, 0, Some(-s)), s, Upper)))
  {
    EngineDiffs(c, s);
  }

  /** The one-sided differencers, given the two shifted halves. */
  lemma EngineDiffs(c: CenDiff, s: int)
    requires c.Valid() && 1 <= s && 2 * s + 1 <= |c.arr|
    ensures c.diffFwd.Diff(Some(ISel(c.arr, s, None)), s) == Success(StepDiff(ISel(c.arr, s, None), s, Lower))
    ensures c.diffBwd.Diff(Some(ISel(c.arr, 0, Some(-s))), s) == Success(StepDiff(ISel(c.arr, 0, Some(-s)), s, Upper))
  {
    var a := c.arr;
    assert c.diffFwd.FindArr(Some(ISel(a, s, None))) == ISel(a, s, None);
    assert c.diffBwd.FindArr(Some(ISel(a, 0, Some(-s)))) == ISel(a, 0, Some(-s));
  }

  /** With the default spacing, each edge is a single cell. */
  lemma EdgeCells(c: CenDiff)
    requires c.Valid() && Indexed(c.arr) && |c.arr| >= 2
    ensures c.DiffEdge(1, "left") == Success(LeftEdge(c.arr))
    ensures c.DiffEdge(1, "right") == Success(RightEdge(c.arr))
  {
    DiffEdgeLeft(c, 1);
    assert c.DiffEdge(1, "left").Success?;
    var l := c.DiffEdge(1, "left").value;
    assert |l| == 1;
    assert c.arr[0].pos == 0;
    assert l[0] == LeftEdge(c.arr)[0];
    assert l == LeftEdge(c.arr);
    DiffEdgeRight(c, 1);
    assert c.DiffEdge(1, "right").Success?;
    var r := c.DiffEdge(1, "right").value;
    assert |r| == 1;
    assert c.arr[|c.arr| - 1].pos == |c.arr| - 1;
    assert r[0] == RightEdge(c.arr)[0];
    assert r == RightEdge(c.arr);
  }

  /** Whenever `diff` succeeds on an array labelled by its indices, the
      result is the centered stencil, with the left edge cell in front
      exactly when `fill_edge` is `"left"` or `"both"` and the right edge
      cell behind exactly when it is the tuple `("right", "both")`. */
  lemma DiffIsStencil(c: CenDiff, arr': Option<Field>, s: int, fill: FillEdge)
    requires c.Valid() && Indexed(c.arr) && c.Diff(arr', s, fill).Success?
    ensures c.Diff(arr', s, fill).value ==
      (if FillsLeft(fill) then LeftEdge(c.arr) else []) + Stencil(c.arr, s) + (if FillsRight(fill) then RightEdge(c.arr) else [])
  {
    DiffFillingIsStencil(c, arr', s, FillsLeft(fill), FillsRight(fill));
  }

  /** The result holds one sample per label the stencil reaches, plus one
      per edge filled. */
  lemma DiffLength(c: CenDiff, arr': Option<Field>, s: int, fill: FillEdge)
    requires c.Valid() && Indexed(c.arr) && c.Diff(arr', s, fill).Success?
    ensures |c.Diff(arr', s, fill).value| ==
      |c.arr| - 2 * s + (if FillsLeft(fill) then 1 else 0) + (if FillsRight(fill) then 1 else 0)
  {
    DiffIsStencil(c, arr', s, fill);
  }

  /** The first label of the result is 0, the label of the left edge, if
      and only if `fill_edge` is `"left"` or `"both"`; the stencil alone
      starts at label `spacing`. */
  lemma LeftEdgeFilledIff(c: CenDiff, arr': Option<Field>, s: int, fill: FillEdge)
    requires c.Valid() && Indexed(c.arr) && c.Diff(arr', s, fill).Success?
    ensures var r := c.Diff(arr', s, fill).value;
      |r| > 0 && (r[0].pos == 0 <==> FillsLeft(fill))
  {
    DiffIsStencil(c, arr', s, fill);
    PiecesEnds(c.arr, s, FillsLeft(fill), FillsRight(fill));
  }

  /** The last label of the result is `n - 1`, the label of the right edge,
      if and only if `fill_edge` is the tuple `("right", "both")`: neither
      `"right"`, nor `"both"`, nor `True` ever fill it. */
  lemma RightEdgeFilledIff(c: CenDiff, arr': Option<Field>, s: int, fill: FillEdge)
    requires c.Valid() && Indexed(c.arr) && c.Diff(arr', s, fill).Success?
    ensures var r := c.Diff(arr', s, fill).value;
      |r| > 0 && (r[|r| - 1].pos == |c.arr| - 1 <==> FillsRight(fill))
  {
    var fl, fr := FillsLeft(fill), FillsRight(fill);
    var pieces := (if fl then LeftEdge(c.arr) else []) + Stencil(c.arr, s) + (if fr then RightEdge(c.arr) else []);
    assert c.Diff(arr', s, fill).value == pieces by {
      DiffIsStencil(c, arr', s, fill);
    }
    assert 1 <= s && 2 * s + 1 <= |c.arr|;
    PiecesEnds(c.arr, s, fl, fr);
  }

  /** The stencil framed by the edges asked for starts at label 0 exactly
      when the left edge is there and ends at label `n - 1` exactly when the
      right edge is there. */
  lemma PiecesEnds(a: Field, s: int, fillLeft: bool, fillRight: bool)
    requires Indexed(a) && 1 <= s && 2 * s + 1 <= |a|
    ensures var r := (if fillLeft then LeftEdge(a) else []) + Stencil(a, s) + (if fillRight then RightEdge(a) else []);
      && |r| > 0 && (r[0].pos == 0 <==> fillLeft) && (r[|r| - 1].pos == |a| - 1 <==> fillRight)
  {
    StencilEnds(a, s);
    Ends((if fillLeft then LeftEdge(a) else []), Stencil(a, s), (if fillRight then RightEdge(a) else []));
  }

  /** The first and the last sample of a middle piece framed by at most one
      sample on either side. */
  lemma Ends(front: Field, middle: Field, back: Field)
    requires |front| <= 1 && middle != [] && |back| <= 1
    ensures var r := front + middle + back;
      && r[0] == (if front == [] then middle[0] else front[0])
      && r[|r| - 1] == (if back == [] then middle[|middle| - 1] else back[0])
  {
  }

  /** `True` and `False` both give the bare stencil. */
  lemma BoolFillsNothing(c: CenDiff, arr': Option<Field>, s: int, b: bool)
    requires c.Valid() && Indexed(c.arr) && c.Diff(arr', s, Bool(b)).Success?
    ensures c.Diff(arr', s, Bool(b)).value == Stencil(c.arr, s)
  {
    DiffIsStencil(c, arr', s, Bool(b));
    assert [] + Stencil(c.arr, s) + [] == Stencil(c.arr, s);
  }

  /** As written, `"both"` with spacing one leaves the right edge open: the
      result is one sample short of the array. */
  lemma BothLeavesRightEdgeOpen(a: Field, dim: Dim)
    requires Indexed(a) && |a| >= 3
    ensures Init(a, dim).Diff(None, 1, Str("both")).Success?
    ensures |Init(a, dim).Diff(None, 1, Str("both")).value| == |a| - 1
  {
    DiffLength(Init(a, dim), None, 1, Str("both"));
  }

  /** As documented, `True` and `"both"` with spacing one give a result
      labelled exactly like the array. */
  lemma DiffAsIntendedKeepsShape(a: Field, dim: Dim, fill: FillEdge)
    requires Indexed(a) && |a| >= 3 && (fill == Bool(true) || fill == Str("both"))
    ensures Init(a, dim).DiffAsIntended(None, 1, fill).Success?
    ensures var r := Init(a, dim).DiffAsIntended(None, 1, fill).value;
      |r| == |a| && Indexed(r)
  {
    var c := Init(a, dim);
    DiffFillingIsStencil(c, None, 1, true, true);
    var r := c.DiffAsIntended(None, 1, fill).value;
    var t := Stencil(a, 1);
    assert r == LeftEdge(a) + t + RightEdge(a);
    forall k | 0 <= k < |r| ensures r[k].pos == k {
      if 0 < k < |r| - 1 {
        assert r[k] == t[k - 1];
        StencilAt(a, 1, k - 1);
      }
    }
  }

  /** As written, a bad side raises an `AttributeError`; as intended, the
      `ValueError` naming it. */
  lemma BadSideMisreported(a: Field, dim: Dim, side: string)
    requires side != "left" && side != "right"
    ensures Init(a, dim).DiffEdge(1, side) == Failure(AttributeError("ValueError", "format"))
    ensures Init(a, dim).DiffEdgeAsIntended(1, side) == Failure(ValueError(BadSide(side)))
  {
  }
}
