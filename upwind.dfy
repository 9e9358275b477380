/** Upwind advection along one physical coordinate: a backward and a forward
    derivative engine built alike, their edges swapped, and the two blended
    by the sign of the flow; and the composition of such schemes into the
    horizontal, vertical and three-dimensional advection on the sphere in
    hybrid coordinates. */
module Upwinding {
  import opened Common
  import opened Labelled

  /** The pair of derivative classes (`_DERIV_BWD_CLS`, `_DERIV_FWD_CLS`) a
      scheme builds its engines from. */
  datatype Family = PhysFamily | LonFamily | LatFamily | EtaFamily | SphereEtaFamily

  datatype Direction = Bwd | Fwd

  /** `_DERIV_METHOD`: the engine method a scheme calls. */
  datatype Method = Deriv | DdxConstP | DdyConstP

  /** The hybrid-coordinate coefficients and the surface pressure. */
  datatype Hybrid = Hybrid(pk: seq<real>, bk: seq<real>, ps: Field)

  /** A derivative engine as constructed: its class, its direction, and the
      arguments it was given (`None` where one was not passed). */
  datatype Engine = Engine(
    family: Family, dir: Direction, arr: Array, dim: Option<Dim>, coord: Option<Field>,
    hybrid: Option<Hybrid>, spacing: int, order: int, fillEdge: bool, cyclic: Option<bool>)

  /** The derivative code of the concrete engine classes, which is not part
      of this model: given an engine, the method called on it and the
      `oper` keyword passed, what that call returns. */
  type Evaluator = (Engine, Method, Option<string>) -> Result<Field>

  /** Calling the selected method on an engine: the generic physical
      derivative raises `NotImplementedError`, the concrete ones do what the
      evaluator says. */
  function Derive(eval: Evaluator, e: Engine, m: Method, oper: Option<string>): (r: Result<Field>)
    ensures e.family == PhysFamily ==> r == Failure(NotImplementedError)
    ensures e.family != PhysFamily ==> r == eval(e, m, oper)
  {
    if e.family == PhysFamily then Failure(NotImplementedError) else eval(e, m, oper)
  }

  /** The dimension an engine differences along: the one it was given, or
      its class's own; the hybrid engines always work along the levels,
      except the constant-pressure derivatives in longitude and latitude. */
  function Along(e: Engine, m: Method): Option<Dim> {
    match e.family
    case PhysFamily => e.dim
    case LonFamily => Some(if e.dim.Some? then e.dim.value else Lon)
    case LatFamily => Some(if e.dim.Some? then e.dim.value else Lat)
    case EtaFamily => Some(Pfull)
    case SphereEtaFamily => Some(if m == DdxConstP then Lon else if m == DdyConstP then Lat else Pfull)
  }

  /** How many samples of `f`, whose labels run on consecutively from its
      first one, are labelled below `p`. */
  function Offset(f: Field, p: int): (r: nat)
    ensures r <= |f|
  {
    if f == [] then 0 else Clamp(p - f[0].pos, |f|)
  }

  function Clamp(x: int, n: nat): (r: nat)
    ensures r <= n
  {
    if x < 0 then 0 else if x > n then n else x
  }

  /** The first label of the differenced line, where the forward derivative
      starts, and one past its last label, where the backward derivative
      ends. */
  function FirstLabel(bwd: Field, fwd: Field): int {
    if fwd != [] then fwd[0].pos else if bwd != [] then bwd[0].pos else 0
  }

  function EndLabel(bwd: Field, fwd: Field): int {
    if bwd != [] then bwd[|bwd| - 1].pos + 1 else if fwd != [] then fwd[|fwd| - 1].pos + 1 else 0
  }

  /** `_swap_bwd_fwd_edges`: on the first `w` labels of the line the
      backward derivative is replaced by the forward one, and on the last
      `w` labels the forward derivative by the backward one.  The edges are
      found by label (each derivative's samples counted from its own first
      label), so a derivative that was cut short on the side it cannot
      reach is completed by the other. */
  function SwapEdges(bwd: Field, fwd: Field, w: int): (r: (Field, Field))
    ensures |r.0| <= |bwd| + |fwd| && |r.1| <= |bwd| + |fwd|
  {
    if w < 1 then (bwd, fwd)
    else
      var lo, hi := FirstLabel(bwd, fwd) + w, EndLabel(bwd, fwd) - w;
      (fwd[..Offset(fwd, lo)] + bwd[Offset(bwd, lo)..], fwd[..Offset(fwd, hi)] + bwd[Offset(bwd, hi)..])
  }

  /** `_flow_neg_pos`: the flow where it is negative and zero elsewhere, and
      the flow where it is not negative and zero elsewhere. */
  function FlowNegPos(flow: Field): (r: (Field, Field))
    ensures |r.0| == |flow| && |r.1| == |flow|
  {
    (seq(|flow|, k requires 0 <= k < |flow| => Cell(flow[k].pos, flow[k].x, if flow[k].v < 0.0 then flow[k].v else 0.0)),
     seq(|flow|, k requires 0 <= k < |flow| => Cell(flow[k].pos, flow[k].x, if flow[k].v < 0.0 then 0.0 else flow[k].v)))
  }

  /** `pos*bwd + neg*fwd`, each product and the sum aligned on labels. */
  function Blend(flow: Field, bwd: Field, fwd: Field): (r: Field)
    ensures |r| <= |flow|
  {
    var (neg, pos) := FlowNegPos(flow);
    Add(Mul(pos, bwd), Mul(neg, fwd))
  }

  /** The upwind choice at one sample: the backward derivative where the
      flow is not negative, the forward one where it is. */
  function UpwindValue(flow: real, bwd: real, fwd: real): real {
    if flow < 0.0 then flow * fwd else flow * bwd
  }

  /** The reference value of upwind advection at sample `j` of aligned
      inputs: the backward derivative replaced by the forward one on the
      first `w` samples, the forward one replaced by the backward one on
      the last `w`, and the upwind choice between the two. */
  function UpwindAt(flow: Field, bwd: Field, fwd: Field, w: int, j: int): real
    requires |bwd| == |flow| && |fwd| == |flow| && 0 <= j < |flow|
  {
    UpwindValue(flow[j].v, if j < w then fwd[j].v else bwd[j].v, if j < |flow| - w then fwd[j].v else bwd[j].v)
  }

  /** The same reference value for derivatives cut short by `w` samples:
      the forward one covers labels `0 .. n - w - 1`, the backward one labels
      `w .. n - 1`, each read where it exists. */
  function UpwindTruncAt(flow: Field, bwd: Field, fwd: Field, w: int, j: int): real
    requires 0 <= w && 2 * w <= |flow| && |bwd| == |flow| - w && |fwd| == |flow| - w && 0 <= j < |flow|
  {
    UpwindValue(flow[j].v, if j < w then fwd[j].v else bwd[j - w].v, if j < |flow| - w then fwd[j].v else bwd[j - w].v)
  }

  /** The upwind scheme classes. */
  datatype Variant = PhysUpwind | LonUpwind | LatUpwind | EtaUpwind | LonUpwindConstP | LatUpwindConstP

  /** The attributes the concrete constructors set. */
  datatype Attrs = Attrs(
    flow: Field, arr: Array, spacing: int, order: int, fillEdge: bool,
    dim: Dim, coord: Field, hybrid: Option<Hybrid>)

  /** An upwind scheme: its class, the attributes its constructor set (the
      generic `PhysUpwind` constructor sets none), its two engines and the
      method it calls on them. */
  datatype Upwind = Upwind(variant: Variant, attrs: Option<Attrs>, derivBwd: Engine, derivFwd: Engine, selected: Method) {

    /** `_derivs_bwd_fwd`: the backward and then the forward derivative,
        called with the same arguments, with their edges swapped over a
        width of the engines' order times spacing. */
    function DerivsBwdFwd(eval: Evaluator, oper: Option<string>): (r: Result<(Field, Field)>)
      ensures r.Success? <==>
        Derive(eval, derivBwd, selected, oper).Success? && Derive(eval, derivFwd, selected, oper).Success?
      ensures r.Success? ==>
        r.value == SwapEdges(Derive(eval, derivBwd, selected, oper).value, Derive(eval, derivFwd, selected, oper).value,
                             derivBwd.order * derivBwd.spacing)
    {
      var bwd :- Derive(eval, derivBwd, selected, oper);
      var fwd :- Derive(eval, derivFwd, selected, oper);
      Success(SwapEdges(bwd, fwd, derivBwd.order * derivBwd.spacing))
    }

    /** The blend of the swapped derivatives by the sign of the flow. */
    function Blended(eval: Evaluator, oper: Option<string>): (r: Result<Field>)
      requires attrs.Some?
      ensures r.Success? <==> DerivsBwdFwd(eval, oper).Success?
      ensures r.Success? ==> |r.value| <= |attrs.value.flow|
    {
      var p :- DerivsBwdFwd(eval, oper);
      Success(Blend(attrs.value.flow, p.0, p.1))
    }

    /** `advec`: the blend, cut by `order` samples at each end along the
        scheme's dimension unless edges are filled.  Slicing along a
        dimension the array lacks raises; slicing along another dimension
        than the one differenced leaves the differenced slice whole. */
    function Advec(eval: Evaluator, oper: Option<string>): (r: Result<Field>)
      ensures DerivsBwdFwd(eval, oper).Failure? ==> r == Failure(DerivsBwdFwd(eval, oper).error)
      ensures DerivsBwdFwd(eval, oper).Success? && attrs.None? ==> r == Failure(AttributeError("PhysUpwind", "flow"))
      ensures attrs.Some? ==>
        (r.Success? <==> DerivsBwdFwd(eval, oper).Success? && (attrs.value.fillEdge || attrs.value.dim in attrs.value.arr.dims))
      ensures attrs.Some? && DerivsBwdFwd(eval, oper).Success? && !attrs.value.fillEdge && attrs.value.dim !in attrs.value.arr.dims ==>
        r == Failure(ValueError(NoSuchDim(attrs.value.dim)))
      ensures r.Success? ==> attrs.Some? && |r.value| <= |attrs.value.flow|
    {
      var p :- DerivsBwdFwd(eval, oper);
      if attrs.None? then Failure(AttributeError("PhysUpwind", "flow"))
      else
        var a := attrs.value;
        var blend := Blend(a.flow, p.0, p.1);
        if a.fillEdge then Success(blend)
        else if a.dim !in a.arr.dims then Failure(ValueError(NoSuchDim(a.dim)))
        else if Some(a.dim) == Along(derivBwd, selected) then Success(ISel(blend, a.order, Some(-a.order)))
        else Success(blend)
    }
  }

  /** The two engines of a scheme are built alike and differ in direction only. */
  predicate Twins(u: Upwind) {
    u.derivBwd.dir == Bwd && u.derivFwd == u.derivBwd.(dir := Fwd)
  }

  /** `PhysUpwind(flow, arr, dim, coord=None, spacing=1, order=2,
      fill_edge=True, cyclic=False)`: two generic engines with every
      argument passed on, and none of the attributes set. */
  function NewPhysUpwind(flow: Field, arr: Array, dim: Option<Dim>, coord: Option<Field> := None, spacing: int := 1,
                         order: int := 2, fillEdge: bool := true, cyclic: bool := false): (u: Upwind)
    ensures Twins(u) && u.attrs.None? && u.selected == Deriv
    ensures u.derivBwd == Engine(PhysFamily, Bwd, arr, dim, coord, None, spacing, order, fillEdge, Some(cyclic))
  {
    var e := Engine(PhysFamily, Bwd, arr, dim, coord, None, spacing, order, fillEdge, Some(cyclic));
    Upwind(PhysUpwind, None, e, e.(dir := Fwd), Deriv)
  }

  /** The class dimension `_DIM` of the longitude, latitude and hybrid
      schemes; the constant-pressure schemes inherit the hybrid one. */
  function ClassDim(v: Variant): Dim {
    match v
    case LonUpwind => Lon
    case LatUpwind => Lat
    case _ => Pfull
  }

  /** The derivative classes each scheme builds its engines from. */
  function FamilyOf(v: Variant): Family {
    match v
    case PhysUpwind => PhysFamily
    case LonUpwind => LonFamily
    case LatUpwind => LatFamily
    case EtaUpwind => EtaFamily
    case _ => SphereEtaFamily
  }

  /** `_DERIV_METHOD`: `d_dx_const_p` and `d_dy_const_p` for the
      constant-pressure schemes, `deriv` for all others. */
  function MethodOf(v: Variant): Method {
    match v
    case LonUpwindConstP => DdxConstP
    case LatUpwindConstP => DdyConstP
    case _ => Deriv
  }

  /** `dim if dim is not None else _DIM` and `coord if coord is not None
      else arr[_DIM]`: the coordinate comes from the class dimension even
      when another dimension was requested, and looking it up may raise
      `KeyError`. */
  function ResolveAttrs(flow: Field, arr: Array, classDim: Dim, dim: Option<Dim>, coord: Option<Field>,
                        spacing: int, order: int, fillEdge: bool, hybrid: Option<Hybrid>): (r: Result<Attrs>)
    ensures r.Success? <==> coord.Some? || classDim in arr.coords
    ensures r.Failure? ==> r.error == KeyError(classDim)
    ensures r.Success? ==>
      && r.value.dim == (if dim.Some? then dim.value else classDim)
      && r.value.coord == (if coord.Some? then coord.value else arr.coords[classDim])
      && r.value.flow == flow && r.value.arr == arr && r.value.hybrid == hybrid
      && r.value.spacing == spacing && r.value.order == order && r.value.fillEdge == fillEdge
  {
    var c :- if coord.Some? then Success(coord.value) else arr.Get(classDim);
    Success(Attrs(flow, arr, spacing, order, fillEdge, if dim.Some? then dim.value else classDim, c, hybrid))
  }

  /** `LonUpwind(flow, arr, dim=None, coord=None, spacing=1, order=2,
      fill_edge=True, cyclic=True)`: the engines get the dimension and the
      coordinate as passed, unresolved. */
  function NewLonUpwind(flow: Field, arr: Array, dim: Option<Dim> := None, coord: Option<Field> := None, spacing: int := 1,
                        order: int := 2, fillEdge: bool := true, cyclic: bool := true): (r: Result<Upwind>)
    ensures r.Success? <==> coord.Some? || Lon in arr.coords
    ensures r.Success? ==>
      && Twins(r.value) && r.value.selected == Deriv && r.value.attrs.Some?
      && r.value.variant == LonUpwind
      && r.value.attrs.value == Attrs(flow, arr, spacing, order, fillEdge, if dim.Some? then dim.value else Lon,
                                      if coord.Some? then coord.value else arr.coords[Lon], None)
      && r.value.derivBwd == Engine(LonFamily, Bwd, arr, dim, coord, None, spacing, order, fillEdge, Some(cyclic))
  {
    var a :- ResolveAttrs(flow, arr, ClassDim(LonUpwind), dim, coord, spacing, order, fillEdge, None);
    var e := Engine(LonFamily, Bwd, arr, dim, coord, None, spacing, order, fillEdge, Some(cyclic));
    Success(Upwind(LonUpwind, Some(a), e, e.(dir := Fwd), Deriv))
  }

  /** `LatUpwind(flow, arr, dim=None, coord=None, spacing=1, order=2,
      fill_edge=True)`: as the longitude scheme, but no cyclic flag is
      passed to the engines. */
  function NewLatUpwind(flow: Field, arr: Array, dim: Option<Dim> := None, coord: Option<Field> := None, spacing: int := 1,
                        order: int := 2, fillEdge: bool := true): (r: Result<Upwind>)
    ensures r.Success? <==> coord.Some? || Lat in arr.coords
    ensures r.Success? ==>
      && Twins(r.value) && r.value.selected == Deriv && r.value.attrs.Some?
      && r.value.variant == LatUpwind
      && r.value.attrs.value == Attrs(flow, arr, spacing, order, fillEdge, if dim.Some? then dim.value else Lat,
                                      if coord.Some? then coord.value else arr.coords[Lat], None)
      && r.value.derivBwd == Engine(LatFamily, Bwd, arr, dim, coord, None, spacing, order, fillEdge, None)
  {
    var a :- ResolveAttrs(flow, arr, ClassDim(LatUpwind), dim, coord, spacing, order, fillEdge, None);
    var e := Engine(LatFamily, Bwd, arr, dim, coord, None, spacing, order, fillEdge, None);
    Success(Upwind(LatUpwind, Some(a), e, e.(dir := Fwd), Deriv))
  }

  /** The hybrid schemes `EtaUpwind`, `LonUpwindConstP` and
      `LatUpwindConstP` (`flow, arr, pk, bk, ps, dim=None, coord=None,
      spacing=1, order=2, fill_edge=True`), with the class dimension given:
      the engines get the array, the coefficients, the surface pressure,
      the spacing, the order and the edge flag, and neither a dimension nor
      a coordinate. */
  function NewHybridWith(v: Variant, classDim: Dim, flow: Field, arr: Array, pk: seq<real>, bk: seq<real>, ps: Field,
                         dim: Option<Dim>, coord: Option<Field>, spacing: int, order: int, fillEdge: bool): (r: Result<Upwind>)
    requires v == EtaUpwind || v == LonUpwindConstP || v == LatUpwindConstP
    ensures r.Success? <==> coord.Some? || classDim in arr.coords
    ensures r.Success? ==>
      && Twins(r.value) && r.value.variant == v && r.value.selected == MethodOf(v) && r.value.attrs.Some?
      && r.value.attrs.value == Attrs(flow, arr, spacing, order, fillEdge, if dim.Some? then dim.value else classDim,
                                      if coord.Some? then coord.value else arr.coords[classDim], Some(Hybrid(pk, bk, ps)))
      && r.value.derivBwd == Engine(FamilyOf(v), Bwd, arr, None, None, Some(Hybrid(pk, bk, ps)), spacing, order, fillEdge, None)
  {
    var h := Hybrid(pk, bk, ps);
    var a :- ResolveAttrs(flow, arr, classDim, dim, coord, spacing, order, fillEdge, Some(h));
    var e := Engine(FamilyOf(v), Bwd, arr, None, None, Some(h), spacing, order, fillEdge, None);
    Success(Upwind(v, Some(a), e, e.(dir := Fwd), MethodOf(v)))
  }

  /** The hybrid schemes as written: the constant-pressure ones inherit the
      vertical class dimension. */
  function NewHybrid(v: Variant, flow: Field, arr: Array, pk: seq<real>, bk: seq<real>, ps: Field,
                     dim: Option<Dim> := None, coord: Option<Field> := None, spacing: int := 1,
                     order: int := 2, fillEdge: bool := true): (r: Result<Upwind>)
    requires v == EtaUpwind || v == LonUpwindConstP || v == LatUpwindConstP
    ensures r.Success? ==> r.value.attrs.Some? && r.value.attrs.value.dim == (if dim.Some? then dim.value else Pfull)
  {
    NewHybridWith(v, ClassDim(v), flow, arr, pk, bk, ps, dim, coord, spacing, order, fillEdge)
  }

  /** The class dimension the constant-pressure schemes evidently should
      have: the dimension they difference along. */
  function ClassDimAsIntended(v: Variant): Dim {
    match v
    case LonUpwindConstP => Lon
    case LatUpwindConstP => Lat
    case _ => ClassDim(v)
  }

  /** The hybrid schemes with the corrected class dimension. */
  function NewHybridAsIntended(v: Variant, flow: Field, arr: Array, pk: seq<real>, bk: seq<real>, ps: Field,
                               dim: Option<Dim> := None, coord: Option<Field> := None, spacing: int := 1,
                               order: int := 2, fillEdge: bool := true): (r: Result<Upwind>)
    requires v == EtaUpwind || v == LonUpwindConstP || v == LatUpwindConstP
    ensures r.Success? && dim.None? ==> r.value.attrs.Some? && Some(r.value.attrs.value.dim) == Along(r.value.derivBwd, r.value.selected)
  {
    NewHybridWith(v, ClassDimAsIntended(v), flow, arr, pk, bk, ps, dim, coord, spacing, order, fillEdge)
  }

  /** `SphereEtaUpwind(arr, pk, bk, ps, spacing=1, order=2,
      fill_edge=True)`: the configuration each of its one-dimensional
      schemes is built with.  The schemes are built with the corrected
      class dimension, so that with edges not filled each one cuts the line
      it differences. */
  datatype SphereEtaUpwind = SphereEtaUpwind(
    arr: Array, lat: Field, pk: seq<real>, bk: seq<real>, ps: Field, spacing: int, order: int, fillEdge: bool) {

    /** `advec_x_const_p`: zonal advection at constant pressure. */
    function AdvecXConstP(eval: Evaluator, u: Field): (r: Result<Field>)
      ensures var s := NewHybridAsIntended(LonUpwindConstP, u, arr, pk, bk, ps, None, None, spacing, order, fillEdge);
        && (s.Failure? ==> r == Failure(s.error))
        && (s.Success? ==> r == s.value.Advec(eval, None))
      ensures r.Success? ==> |r.value| <= |u|
    {
      var s :- NewHybridAsIntended(LonUpwindConstP, u, arr, pk, bk, ps, None, None, spacing, order, fillEdge);
      s.Advec(eval, None)
    }

    /** `advec_y_const_p`: meridional advection at constant pressure, with
        the `grad` form of the derivative. */
    function AdvecYConstP(eval: Evaluator, v: Field): (r: Result<Field>)
      ensures var s := NewHybridAsIntended(LatUpwindConstP, v, arr, pk, bk, ps, None, None, spacing, order, fillEdge);
        && (s.Failure? ==> r == Failure(s.error))
        && (s.Success? ==> r == s.value.Advec(eval, Some("grad")))
      ensures r.Success? ==> |r.value| <= |v|
    {
      var s :- NewHybridAsIntended(LatUpwindConstP, v, arr, pk, bk, ps, None, None, spacing, order, fillEdge);
      s.Advec(eval, Some("grad"))
    }

    /** `advec_horiz_const_p`: the sum of the two. */
    function AdvecHorizConstP(eval: Evaluator, u: Field, v: Field): (r: Result<Field>)
      ensures r.Success? <==> AdvecXConstP(eval, u).Success? && AdvecYConstP(eval, v).Success?
      ensures r.Success? ==> r.value == Add(AdvecXConstP(eval, u).value, AdvecYConstP(eval, v).value) && |r.value| <= |u|
    {
      var x :- AdvecXConstP(eval, u);
      var y :- AdvecYConstP(eval, v);
      Success(Add(x, y))
    }

    /** `advec_z`, also bound as `advec_p`: vertical advection. */
    function AdvecZ(eval: Evaluator, omega: Field): (r: Result<Field>)
      ensures var s := NewHybridAsIntended(EtaUpwind, omega, arr, pk, bk, ps, None, None, spacing, order, fillEdge);
        && (s.Failure? ==> r == Failure(s.error))
        && (s.Success? ==> r == s.value.Advec(eval, None))
      ensures r.Success? ==> |r.value| <= |omega|
    {
      var s :- NewHybridAsIntended(EtaUpwind, omega, arr, pk, bk, ps, None, None, spacing, order, fillEdge);
      s.Advec(eval, None)
    }

    /** `advec_3d`: horizontal plus vertical advection. */
    function Advec3D(eval: Evaluator, u: Field, v: Field, omega: Field): (r: Result<Field>)
      ensures r.Success? <==> AdvecHorizConstP(eval, u, v).Success? && AdvecZ(eval, omega).Success?
      ensures r.Success? ==> r.value == Add(AdvecHorizConstP(eval, u, v).value, AdvecZ(eval, omega).value) && |r.value| <= |u|
    {
      var h :- AdvecHorizConstP(eval, u, v);
      var p :- AdvecZ(eval, omega);
      Success(Add(h, p))
    }
  }

  /** The constructor reads the latitude coordinate of the array, which
      raises `KeyError` when there is none. */
  function NewSphereEtaUpwind(arr: Array, pk: seq<real>, bk: seq<real>, ps: Field, spacing: int := 1,
                              order: int := 2, fillEdge: bool := true): (r: Result<SphereEtaUpwind>)
    ensures r.Success? <==> Lat in arr.coords
    ensures r.Success? ==> r.value == SphereEtaUpwind(arr, arr.coords[Lat], pk, bk, ps, spacing, order, fillEdge)
  {
    var lat :- arr.Get(Lat);
    Success(SphereEtaUpwind(arr, lat, pk, bk, ps, spacing, order, fillEdge))
  }

  /** The two parts of the flow: each keeps the labels and coordinates, one
      holds the negative values, the other the non-negative ones, and they
      add up to the flow. */
  lemma FlowSplitAt(flow: Field, k: int)
    requires 0 <= k < |flow|
    ensures var (neg, pos) := FlowNegPos(flow);
      && |neg| == |flow| && |pos| == |flow|
      && neg[k].pos == flow[k].pos && pos[k].pos == flow[k].pos
      && neg[k].x == flow[k].x && pos[k].x == flow[k].x
      && neg[k].v <= 0.0 <= pos[k].v && neg[k].v + pos[k].v == flow[k].v
      && (flow[k].v < 0.0 ==> pos[k].v == 0.0) && (0.0 <= flow[k].v ==> neg[k].v == 0.0)
  {
  }

  lemma FlowSplitConsecutive(flow: Field, base: int)
    requires Consecutive(flow, base)
    ensures Consecutive(FlowNegPos(flow).0, base) && Consecutive(FlowNegPos(flow).1, base)
  {
  }

  /** With both derivatives over the whole line, the new backward
      derivative is the forward one up to label `base + w` and the backward
      one from there, and the new forward derivative the forward one up to
      label `base + n - w` and the backward one from there. */
  lemma SwapEdgesParts(bwd: Field, fwd: Field, w: int, base: int)
    requires Consecutive(bwd, base) && Consecutive(fwd, base) && |bwd| == |fwd| && 1 <= w
    ensures var n := |bwd|;
      SwapEdges(bwd, fwd, w)
      == (fwd[..Clamp(w, n)] + bwd[Clamp(w, n)..], fwd[..Clamp(n - w, n)] + bwd[Clamp(n - w, n)..])
  {
    if bwd != [] {
      assert fwd[0].pos == base && bwd[0].pos == base && bwd[|bwd| - 1].pos == base + |bwd| - 1;
    }
  }

  /** So swapping the edges keeps the length and takes each sample from one
      of the two: the forward one on the first `w` samples of the new
      backward derivative, the backward one on the last `w` samples of the
      new forward derivative. */
  lemma SwapEdgesAt(bwd: Field, fwd: Field, w: int, base: int, k: int)
    requires Consecutive(bwd, base) && Consecutive(fwd, base) && |bwd| == |fwd| && 0 <= k < |bwd|
    ensures var (b2, f2) := SwapEdges(bwd, fwd, w);
      && |b2| == |bwd| && |f2| == |bwd|
      && b2[k] == (if k < w then fwd[k] else bwd[k])
      && f2[k] == (if k < |bwd| - w then fwd[k] else bwd[k])
  {
    if 1 <= w {
      SwapEdgesParts(bwd, fwd, w, base);
    }
  }

  lemma SwapEdgesConsecutive(bwd: Field, fwd: Field, w: int, base: int)
    requires Consecutive(bwd, base) && Consecutive(fwd, base) && |bwd| == |fwd|
    ensures Consecutive(SwapEdges(bwd, fwd, w).0, base) && Consecutive(SwapEdges(bwd, fwd, w).1, base)
  {
    var (b2, f2) := SwapEdges(bwd, fwd, w);
    if bwd != [] {
      SwapEdgesAt(bwd, fwd, w, base, 0);
      forall k | 0 <= k < |bwd| ensures b2[k].pos == base + k && f2[k].pos == base + k {
        SwapEdgesAt(bwd, fwd, w, base, k);
      }
    }
  }

  /** The derivatives as engines that neither wrap around nor fill their
      edges return them: the forward one lacks the last `w` labels of the
      line, the backward one the first `w`. */
  predicate Truncated(flow: Field, bwd: Field, fwd: Field, base: int, w: int) {
    && Consecutive(flow, base) && Consecutive(fwd, base) && Consecutive(bwd, base + w)
    && 1 <= w && 2 * w <= |flow| && |fwd| == |flow| - w && |bwd| == |flow| - w
  }

  /** Such derivatives still span the whole line between them: the new
      backward derivative is the first `w` forward samples and then the
      whole backward one, the new forward derivative the whole forward one
      and then the last `w` backward samples. */
  lemma SwapTruncatedParts(flow: Field, bwd: Field, fwd: Field, base: int, w: int)
    requires Truncated(flow, bwd, fwd, base, w)
    ensures SwapEdges(bwd, fwd, w) == (fwd[..w] + bwd[0..], fwd[..|flow| - w] + bwd[|flow| - 2 * w..])
  {
    assert fwd[0].pos == base && bwd[0].pos == base + w && bwd[|bwd| - 1].pos == base + w + (|flow| - w - 1);
  }

  /** Swapping the edges of such derivatives completes both to the whole
      line: the backward one with the forward values on the first `w`
      labels, the forward one with the backward values on the last `w`. */
  lemma SwapTruncatedAt(flow: Field, bwd: Field, fwd: Field, base: int, w: int, k: int)
    requires Truncated(flow, bwd, fwd, base, w) && 0 <= k < |flow|
    ensures var (b2, f2) := SwapEdges(bwd, fwd, w);
      && |b2| == |flow| && |f2| == |flow|
      && b2[k] == (if k < w then fwd[k] else bwd[k - w])
      && f2[k] == (if k < |flow| - w then fwd[k] else bwd[k - w])
  {
    SwapTruncatedParts(flow, bwd, fwd, base, w);
  }

  lemma SwapTruncatedConsecutive(flow: Field, bwd: Field, fwd: Field, base: int, w: int)
    requires Truncated(flow, bwd, fwd, base, w)
    ensures Consecutive(SwapEdges(bwd, fwd, w).0, base) && Consecutive(SwapEdges(bwd, fwd, w).1, base)
  {
    var (b2, f2) := SwapEdges(bwd, fwd, w);
    SwapTruncatedAt(flow, bwd, fwd, base, w, 0);
    forall k | 0 <= k < |flow| ensures b2[k].pos == base + k && f2[k].pos == base + k {
      SwapTruncatedAt(flow, bwd, fwd, base, w, k);
    }
  }

  /** On aligned inputs, `pos*bwd + neg*fwd` is the upwind choice sample by
      sample: the backward derivative where the flow is not negative, the
      forward one where it is negative. */
  lemma BlendAt(flow: Field, bwd: Field, fwd: Field, base: int, k: int)
    requires Consecutive(flow, base) && Consecutive(bwd, base) && Consecutive(fwd, base)
    requires |bwd| == |flow| && |fwd| == |flow| && 0 <= k < |flow|
    ensures |Blend(flow, bwd, fwd)| == |flow|
    ensures Blend(flow, bwd, fwd)[k] == Cell(base + k, flow[k].x, UpwindValue(flow[k].v, bwd[k].v, fwd[k].v))
  {
    var (neg, pos) := FlowNegPos(flow);
    FlowSplitConsecutive(flow, base);
    FlowSplitAt(flow, k);
    JoinAlignedLabels(pos, bwd, base, Times);
    JoinAlignedLabels(neg, fwd, base, Times);
    JoinAlignedAt(pos, bwd, base, Times, k);
    JoinAlignedAt(neg, fwd, base, Times, k);
    JoinAlignedAt(Mul(pos, bwd), Mul(neg, fwd), base, Plus, k);
    SplitChoosesUpwind(flow[k].v, neg[k].v, pos[k].v, bwd[k].v, fwd[k].v);
  }

  /** With the flow split into its negative and its non-negative part,
      `pos*bwd + neg*fwd` is the upwind choice. */
  lemma SplitChoosesUpwind(flow: real, neg: real, pos: real, bwd: real, fwd: real)
    requires neg + pos == flow && (flow < 0.0 ==> pos == 0.0) && (0.0 <= flow ==> neg == 0.0)
    ensures Apply(Plus, Apply(Times, pos, bwd), Apply(Times, neg, fwd)) == UpwindValue(flow, bwd, fwd)
  {
  }

  /** Zero flow blends to zero whatever the derivatives. */
  lemma ZeroFlowBlend(flow: Field, bwd: Field, fwd: Field)
    requires AllZero(flow)
    ensures AllZero(Blend(flow, bwd, fwd))
  {
    var (neg, pos) := FlowNegPos(flow);
    JoinKeepsZero(pos, bwd, Times);
    JoinKeepsZero(neg, fwd, Times);
    JoinKeepsZero(Mul(pos, bwd), Mul(neg, fwd), Plus);
  }

  lemma ISelKeepsZero(f: Field, start: int, stop: Option<int>)
    requires AllZero(f)
    ensures AllZero(ISel(f, start, stop))
  {
  }

  /** Advection by a zero flow is zero wherever it succeeds. */
  lemma AdvecZeroFlow(u: Upwind, eval: Evaluator, oper: Option<string>)
    requires u.attrs.Some? && AllZero(u.attrs.value.flow)
    ensures u.Advec(eval, oper).Success? ==> AllZero(u.Advec(eval, oper).value)
  {
    var p := u.DerivsBwdFwd(eval, oper);
    if p.Success? {
      var a := u.attrs.value;
      ZeroFlowBlend(a.flow, p.value.0, p.value.1);
      ISelKeepsZero(Blend(a.flow, p.value.0, p.value.1), a.order, Some(-a.order));
    }
  }

  /** The generic scheme never computes: its engines raise
      `NotImplementedError`. */
  lemma PhysUpwindNotImplemented(flow: Field, arr: Array, dim: Option<Dim>, coord: Option<Field>, spacing: int,
                                 order: int, fillEdge: bool, cyclic: bool, eval: Evaluator, oper: Option<string>)
    ensures NewPhysUpwind(flow, arr, dim, coord, spacing, order, fillEdge, cyclic).Advec(eval, oper)
            == Failure(NotImplementedError)
  {
  }

  /** The flow and the two derivatives carry the same labels `base`,
      `base + 1`, ... */
  predicate Aligned(flow: Field, bwd: Field, fwd: Field, base: int) {
    && Consecutive(flow, base) && Consecutive(bwd, base) && Consecutive(fwd, base)
    && |bwd| == |flow| && |fwd| == |flow|
  }

  /** Before any cut, advection on aligned inputs is the reference upwind
      value at every sample, on the flow's labels. */
  lemma BlendOfSwappedAt(flow: Field, bwd: Field, fwd: Field, w: int, base: int, j: int)
    requires Aligned(flow, bwd, fwd, base) && 0 <= j < |flow|
    ensures var (b2, f2) := SwapEdges(bwd, fwd, w);
      && |Blend(flow, b2, f2)| == |flow|
      && Blend(flow, b2, f2)[j] == Cell(base + j, flow[j].x, UpwindAt(flow, bwd, fwd, w, j))
  {
    var (b2, f2) := SwapEdges(bwd, fwd, w);
    SwapEdgesAt(bwd, fwd, w, base, j);
    SwapEdgesConsecutive(bwd, fwd, w, base);
    BlendAt(flow, b2, f2, base, j);
  }

  /** The reference upwind value uses the forward derivative on the first
      `w` samples and the backward one on the last `w`, whatever the sign
      of the flow, and in between the backward one for non-negative flow
      and the forward one for negative flow. */
  lemma UpwindAtCases(flow: Field, bwd: Field, fwd: Field, w: int, j: int)
    requires |bwd| == |flow| && |fwd| == |flow| && 0 <= j < |flow|
    ensures j < w && j < |flow| - w ==> UpwindAt(flow, bwd, fwd, w, j) == flow[j].v * fwd[j].v
    ensures w <= j && |flow| - w <= j ==> UpwindAt(flow, bwd, fwd, w, j) == flow[j].v * bwd[j].v
    ensures w <= j < |flow| - w ==> UpwindAt(flow, bwd, fwd, w, j) == UpwindValue(flow[j].v, bwd[j].v, fwd[j].v)
  {
  }

  /** What `advec` returns once both derivatives are known. */
  lemma AdvecOfDerivs(u: Upwind, eval: Evaluator, oper: Option<string>, b: Field, f: Field)
    requires u.attrs.Some?
    requires Derive(eval, u.derivBwd, u.selected, oper) == Success(b)
    requires Derive(eval, u.derivFwd, u.selected, oper) == Success(f)
    ensures var a := u.attrs.value;
      var sw := SwapEdges(b, f, u.derivBwd.order * u.derivBwd.spacing);
      && (a.fillEdge ==> u.Advec(eval, oper) == Success(Blend(a.flow, sw.0, sw.1)))
      && (!a.fillEdge && a.dim in a.arr.dims && Some(a.dim) == Along(u.derivBwd, u.selected) ==>
            u.Advec(eval, oper) == Success(ISel(Blend(a.flow, sw.0, sw.1), a.order, Some(-a.order))))
  {
  }

  /** With edges filled and the derivatives returned on the flow's labels,
      advection keeps the flow's length and labels and is the reference
      upwind value at every sample. */
  lemma AdvecFilledAt(u: Upwind, eval: Evaluator, oper: Option<string>, b: Field, f: Field, base: int, k: int)
    requires u.attrs.Some? && u.attrs.value.fillEdge
    requires Derive(eval, u.derivBwd, u.selected, oper) == Success(b)
    requires Derive(eval, u.derivFwd, u.selected, oper) == Success(f)
    requires Aligned(u.attrs.value.flow, b, f, base) && 0 <= k < |u.attrs.value.flow|
    ensures var r := u.Advec(eval, oper);
      var flow, w := u.attrs.value.flow, u.derivBwd.order * u.derivBwd.spacing;
      && r.Success? && |r.value| == |flow|
      && r.value[k] == Cell(base + k, flow[k].x, UpwindAt(flow, b, f, w, k))
  {
    var flow, w := u.attrs.value.flow, u.derivBwd.order * u.derivBwd.spacing;
    var sw := SwapEdges(b, f, w);
    AdvecOfDerivs(u, eval, oper, b, f);
    assert u.Advec(eval, oper) == Success(Blend(flow, sw.0, sw.1));
    BlendOfSwappedAt(flow, b, f, w, base, k);
  }

  /** Cutting `o` samples from each end of a field of length `n` leaves
      `n - 2*o` of them, or none. */
  lemma TrimAt(f: Field, o: int, k: int)
    requires 1 <= o
    ensures |ISel(f, o, Some(-o))| == Max(0, |f| - 2 * o)
    ensures 0 <= k < |ISel(f, o, Some(-o))| ==> ISel(f, o, Some(-o))[k] == f[o + k]
  {
  }

  /** With edges cut along the dimension the engines difference, advection
      keeps the samples from `order` to `n - order`, each the reference
      upwind value, so `2*order` fewer than the flow (none when the flow is
      shorter). */
  lemma AdvecTrimmedAt(u: Upwind, eval: Evaluator, oper: Option<string>, b: Field, f: Field, base: int, k: int)
    requires u.attrs.Some? && !u.attrs.value.fillEdge && 1 <= u.attrs.value.order
    requires u.attrs.value.dim in u.attrs.value.arr.dims && Some(u.attrs.value.dim) == Along(u.derivBwd, u.selected)
    requires Derive(eval, u.derivBwd, u.selected, oper) == Success(b)
    requires Derive(eval, u.derivFwd, u.selected, oper) == Success(f)
    requires Aligned(u.attrs.value.flow, b, f, base)
    ensures var r := u.Advec(eval, oper);
      var flow, o := u.attrs.value.flow, u.attrs.value.order;
      && r.Success? && |r.value| == Max(0, |flow| - 2 * o)
      && (0 <= k < |r.value| ==>
            r.value[k] == Cell(base + o + k, flow[o + k].x, UpwindAt(flow, b, f, u.derivBwd.order * u.derivBwd.spacing, o + k)))
  {
    var flow, o, w := u.attrs.value.flow, u.attrs.value.order, u.derivBwd.order * u.derivBwd.spacing;
    var sw := SwapEdges(b, f, w);
    var blend := Blend(flow, sw.0, sw.1);
    AdvecOfDerivs(u, eval, oper, b, f);
    assert u.Advec(eval, oper) == Success(ISel(blend, o, Some(-o)));
    if flow != [] {
      BlendOfSwappedAt(flow, b, f, w, base, 0);
    }
    assert |blend| == |flow|;
    TrimAt(blend, o, k);
    if 0 <= k < |ISel(blend, o, Some(-o))| {
      BlendOfSwappedAt(flow, b, f, w, base, o + k);
    }
  }

  /** Advection on derivatives cut short by engines that neither wrap
      around nor fill their edges is the reference value at every sample of
      the flow. */
  lemma BlendOfTruncatedAt(flow: Field, bwd: Field, fwd: Field, w: int, base: int, j: int)
    requires Truncated(flow, bwd, fwd, base, w) && 0 <= j < |flow|
    ensures var (b2, f2) := SwapEdges(bwd, fwd, w);
      && |Blend(flow, b2, f2)| == |flow|
      && Blend(flow, b2, f2)[j] == Cell(base + j, flow[j].x, UpwindTruncAt(flow, bwd, fwd, w, j))
  {
    var (b2, f2) := SwapEdges(bwd, fwd, w);
    SwapTruncatedAt(flow, bwd, fwd, base, w, j);
    SwapTruncatedConsecutive(flow, bwd, fwd, base, w);
    BlendAt(flow, b2, f2, base, j);
  }

  /** With edges cut along the dimension the engines difference and the
      derivatives cut short by `order * spacing` samples, advection still
      keeps the samples from `order` to `n - order`, each the reference
      upwind value on the truncated derivatives. */
  lemma AdvecTruncatedAt(u: Upwind, eval: Evaluator, oper: Option<string>, b: Field, f: Field, base: int, k: int)
    requires u.attrs.Some? && !u.attrs.value.fillEdge && 1 <= u.attrs.value.order
    requires u.attrs.value.dim in u.attrs.value.arr.dims && Some(u.attrs.value.dim) == Along(u.derivBwd, u.selected)
    requires Derive(eval, u.derivBwd, u.selected, oper) == Success(b)
    requires Derive(eval, u.derivFwd, u.selected, oper) == Success(f)
    requires Truncated(u.attrs.value.flow, b, f, base, u.derivBwd.order * u.derivBwd.spacing)
    ensures var r := u.Advec(eval, oper);
      var flow, o := u.attrs.value.flow, u.attrs.value.order;
      && r.Success? && |r.value| == Max(0, |flow| - 2 * o)
      && (0 <= k < |r.value| ==>
            r.value[k] == Cell(base + o + k, flow[o + k].x, UpwindTruncAt(flow, b, f, u.derivBwd.order * u.derivBwd.spacing, o + k)))
  {
    var flow, o, w := u.attrs.value.flow, u.attrs.value.order, u.derivBwd.order * u.derivBwd.spacing;
    var sw := SwapEdges(b, f, w);
    var blend := Blend(flow, sw.0, sw.1);
    AdvecOfDerivs(u, eval, oper, b, f);
    assert u.Advec(eval, oper) == Success(ISel(blend, o, Some(-o)));
    BlendOfTruncatedAt(flow, b, f, w, base, 0);
    assert |blend| == |flow|;
    TrimAt(blend, o, k);
    if 0 <= k < |ISel(blend, o, Some(-o))| {
      BlendOfTruncatedAt(flow, b, f, w, base, o + k);
    }
  }

  /** The constant-pressure schemes are the hybrid vertical scheme with the
      spherical engines and another engine method: same success, same
      attributes, engines equal but for their class. */
  lemma ConstPDiffersOnlyInMethod(v: Variant, flow: Field, arr: Array, pk: seq<real>, bk: seq<real>, ps: Field,
                                  dim: Option<Dim>, coord: Option<Field>, spacing: int, order: int, fillEdge: bool)
    requires v == LonUpwindConstP || v == LatUpwindConstP
    ensures var c := NewHybrid(v, flow, arr, pk, bk, ps, dim, coord, spacing, order, fillEdge);
      var e := NewHybrid(EtaUpwind, flow, arr, pk, bk, ps, dim, coord, spacing, order, fillEdge);
      && c.Success? == e.Success?
      && (c.Success? ==>
            && c.value.attrs == e.value.attrs
            && c.value.derivBwd == e.value.derivBwd.(family := SphereEtaFamily)
            && c.value.derivFwd == e.value.derivFwd.(family := SphereEtaFamily)
            && e.value.selected == Deriv && c.value.selected == (if v == LonUpwindConstP then DdxConstP else DdyConstP))
  {
  }

  /** As written, a constant-pressure scheme built without a dimension takes
      the levels as its dimension while its engines difference along
      longitude or latitude: with edges not filled it cuts nothing from the
      line it differences (or fails when the array has no levels). */
  lemma ConstPCutsWrongAxis(v: Variant, flow: Field, arr: Array, pk: seq<real>, bk: seq<real>, ps: Field,
                            spacing: int, order: int, eval: Evaluator, oper: Option<string>)
    requires v == LonUpwindConstP || v == LatUpwindConstP
    requires Pfull in arr.coords
    ensures var r := NewHybrid(v, flow, arr, pk, bk, ps, None, None, spacing, order, false);
      && r.Success? && r.value.attrs.Some? && r.value.attrs.value.dim == Pfull
      && Along(r.value.derivBwd, r.value.selected) == Some(if v == LonUpwindConstP then Lon else Lat)
      && (Pfull in arr.dims ==> r.value.Advec(eval, oper) == r.value.Blended(eval, oper))
  {
  }

  /** With the class dimension they difference along, the constant-pressure
      schemes cut `order` samples from each end of that line, as the hybrid
      vertical scheme does along the levels. */
  lemma ConstPAsIntendedTrims(v: Variant, flow: Field, arr: Array, pk: seq<real>, bk: seq<real>, ps: Field,
                              spacing: int, order: int, eval: Evaluator, oper: Option<string>,
                              b: Field, f: Field, base: int)
    requires v == EtaUpwind || v == LonUpwindConstP || v == LatUpwindConstP
    requires ClassDimAsIntended(v) in arr.dims && ClassDimAsIntended(v) in arr.coords && 1 <= order
    requires var u := NewHybridAsIntended(v, flow, arr, pk, bk, ps, None, None, spacing, order, false).value;
      Derive(eval, u.derivBwd, u.selected, oper) == Success(b) && Derive(eval, u.derivFwd, u.selected, oper) == Success(f)
    requires Aligned(flow, b, f, base) || Truncated(flow, b, f, base, order * spacing)
    ensures var u := NewHybridAsIntended(v, flow, arr, pk, bk, ps, None, None, spacing, order, false).value;
      u.Advec(eval, oper).Success? && |u.Advec(eval, oper).value| == Max(0, |flow| - 2 * order)
  {
    var u := NewHybridAsIntended(v, flow, arr, pk, bk, ps, None, None, spacing, order, false).value;
    if Aligned(flow, b, f, base) {
      AdvecTrimmedAt(u, eval, oper, b, f, base, 0);
    } else {
      AdvecTruncatedAt(u, eval, oper, b, f, base, 0);
    }
  }

  /** Each one-dimensional term on the sphere vanishes for a zero flow. */
  lemma SphereTermsZeroFlow(s: SphereEtaUpwind, eval: Evaluator, flow: Field)
    requires AllZero(flow)
    ensures s.AdvecXConstP(eval, flow).Success? ==> AllZero(s.AdvecXConstP(eval, flow).value)
    ensures s.AdvecYConstP(eval, flow).Success? ==> AllZero(s.AdvecYConstP(eval, flow).value)
    ensures s.AdvecZ(eval, flow).Success? ==> AllZero(s.AdvecZ(eval, flow).value)
  {
    var x := NewHybridAsIntended(LonUpwindConstP, flow, s.arr, s.pk, s.bk, s.ps, None, None, s.spacing, s.order, s.fillEdge);
    var y := NewHybridAsIntended(LatUpwindConstP, flow, s.arr, s.pk, s.bk, s.ps, None, None, s.spacing, s.order, s.fillEdge);
    var z := NewHybridAsIntended(EtaUpwind, flow, s.arr, s.pk, s.bk, s.ps, None, None, s.spacing, s.order, s.fillEdge);
    if x.Success? { AdvecZeroFlow(x.value, eval, None); }
    if y.Success? { AdvecZeroFlow(y.value, eval, Some("grad")); }
    if z.Success? { AdvecZeroFlow(z.value, eval, None); }
  }

  /** The three-dimensional advection is the zonal, the meridional and the
      vertical term added in that order, and vanishes when all three flows
      are zero. */
  lemma Advec3DOfTerms(s: SphereEtaUpwind, eval: Evaluator, u: Field, v: Field, omega: Field)
    ensures var r := s.Advec3D(eval, u, v, omega);
      var x, y, z := s.AdvecXConstP(eval, u), s.AdvecYConstP(eval, v), s.AdvecZ(eval, omega);
      && (r.Success? <==> x.Success? && y.Success? && z.Success?)
      && (r.Success? ==> r.value == Add(Add(x.value, y.value), z.value))
      && (s.AdvecHorizConstP(eval, u, v).Success? <==> x.Success? && y.Success?)
      && (s.AdvecHorizConstP(eval, u, v).Success? ==> s.AdvecHorizConstP(eval, u, v).value == Add(x.value, y.value))
      && (r.Success? && AllZero(u) && AllZero(v) && AllZero(omega) ==> AllZero(r.value))
  {
    var x, y, z := s.AdvecXConstP(eval, u), s.AdvecYConstP(eval, v), s.AdvecZ(eval, omega);
    if x.Success? && y.Success? && z.Success? && AllZero(u) && AllZero(v) && AllZero(omega) {
      SphereTermsZeroFlow(s, eval, u);
      SphereTermsZeroFlow(s, eval, v);
      SphereTermsZeroFlow(s, eval, omega);
      JoinKeepsZero(x.value, y.value, Plus);
      JoinKeepsZero(Add(x.value, y.value), z.value, Plus);
    }
  }
}
