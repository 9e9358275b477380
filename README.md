# infinite-diff core in Dafny

A model of the differencing and upwind-advection kernel of `infinite_diff`, a
library of finite-difference derivatives and advection operators over
labelled arrays on geophysical grids (longitude, latitude, hybrid
pressure-sigma levels).

The model works along one dimension. A field is a sequence of cells. Each
cell holds a position label (the index it had in the input), the value of
the coordinate there, and the data value. The labelled-array library's
behaviour is modelled explicitly:

- arithmetic between two fields is an inner join on labels, in the order of
  the left operand (`Labelled.Join`, `Add`, `Mul`, `Div`);
- `isel` with a slice follows Python's slice rules (`Labelled.ISel`);
- `diff(n=1, label='lower'|'upper')` keeps the label of the lower or upper
  sample (`Labelled.StepDiff`);
- `xr.concat` along the dimension is sequence concatenation.

Modules:

- `Common`: options, dimensions, and the exceptions the code raises, as a
  `Result` type.
- `Labelled`: the field model, alignment, and the lemmas about joins on
  consecutive labels.
- `FiniteDiff`: `FiniteDiff.fwd_diff1`, `bwd_diff1`, `cen_diff`,
  `fwd_diff_deriv`, `bwd_diff_deriv`, `cen_diff_deriv` and
  `upwind_advection`.
- `Centered`: the `CenDiff` engine, its edge differencing and its
  `fill_edge` policy.
- `Coordinates`: the generic `Coord` wrapper and its dimension check.
- `Upwinding`: the physical upwind schemes (`PhysUpwind`, `LonUpwind`,
  `LatUpwind`, `EtaUpwind`, the constant-pressure schemes) and the
  `SphereEtaUpwind` composition.

Two facts proved here are worth knowing. First, `cen_diff` at any spacing
`s` gives the difference of the two immediate neighbours; `s` only decides
how many samples are dropped at each end (`FiniteDiff.CenDiffInterior`).
This one follows from `finite_diff.py` alone. Second, `CenDiff.diff` at
spacing `s` is the difference of the samples `s` either side
(`Centered.InteriorIsStencil`). This one is a fact about the model: it
holds given the step-difference bodies the model gives the one-sided
`diff` methods, whose source is not part of this model.

The objects of the source are configured once in their constructors and
never changed afterwards. They are modelled as immutable datatypes built by
constructor functions.

## Model

| member | source | states |
|---|---|---|
| FiniteDiff.FwdDiff1 | infinite_diff/finite_diff.py:30-32 | one sample fewer than the input; sample k is `f[k+1] - f[k]`, with the label and coordinate of the lower sample |
| FiniteDiff.BwdDiff1 | infinite_diff/finite_diff.py:35-37 | the same differences, with the label and coordinate of the upper sample |
| FiniteDiff.CenDiff | infinite_diff/finite_diff.py:58-59 | fails exactly when spacing < 1, with `ValueError` |
| FiniteDiff.CenInterior | infinite_diff/finite_diff.py:60-63 | for spacing at least 1, the sum of the two halves has at most `n - s - 1` samples (the inner join keeps only shared labels) |
| FiniteDiff.CenDiffInterior | infinite_diff/finite_diff.py:60-63 | without edges: `max(0, n - 2s)` samples, labelled `s .. n-1-s`; each is `f[k+1] - f[k-1]`, the forward plus the backward difference there |
| FiniteDiff.CenDiffEdges | infinite_diff/finite_diff.py:64-69 | with edges: the interior framed by `f[1]-f[0]` at label 0 and `f[n-1]-f[n-2]` at label n-1; an input shorter than 2 gives nothing |
| FiniteDiff.EdgeDiffs | infinite_diff/finite_diff.py:65-68 | the two one-sided edge differences, with their labels |
| FiniteDiff.CenDiffEdgesKeepShape | infinite_diff/finite_diff.py:64-69 | at spacing 1 with edges, the result has exactly the input's labels |
| FiniteDiff.EdgeSample | infinite_diff/finite_diff.py:60-69 | with edges at spacing 1: one-sided differences at both ends, the interior sample in between |
| FiniteDiff.FwdDiffDeriv | infinite_diff/finite_diff.py:73-84 | at most `n - 1` samples, whatever the labels |
| FiniteDiff.FwdDiffDerivShape | infinite_diff/finite_diff.py:84 | `max(0, n-1)` samples with the lower labels; each the slope to the next sample |
| FiniteDiff.FwdDiffDerivAt | infinite_diff/finite_diff.py:84 | sample k is the slope from k to k+1, at label k |
| FiniteDiff.FwdDerivLength | infinite_diff/finite_diff.py:84 | length `max(0, n-1)` |
| FiniteDiff.BwdDiffDeriv | infinite_diff/finite_diff.py:87-98 | at most `n - 1` samples, whatever the labels |
| FiniteDiff.BwdDiffDerivShape | infinite_diff/finite_diff.py:98 | the same slopes, labelled with the upper sample |
| FiniteDiff.BwdDiffDerivAt | infinite_diff/finite_diff.py:98 | sample k is the slope from k to k+1, at label k+1 |
| FiniteDiff.BwdDerivLength | infinite_diff/finite_diff.py:98 | length `max(0, n-1)` |
| FiniteDiff.FwdDiffsOfLinear | infinite_diff/finite_diff.py:84 | the forward differences of `c*x + b` are `c` times those of `x` |
| FiniteDiff.BwdDiffsOfLinear | infinite_diff/finite_diff.py:98 | the same for backward differences |
| FiniteDiff.OneSidedDerivOfLinear | infinite_diff/finite_diff.py:73-98 | over increasing coordinates, both one-sided derivatives of `c*x + b` are `c` everywhere |
| FiniteDiff.OneSidedDerivOfConstant | infinite_diff/finite_diff.py:73-98 | over increasing coordinates, a constant field has zero one-sided derivatives |
| FiniteDiff.CenDiffDeriv | infinite_diff/finite_diff.py:119-121 | fails exactly when `order != 2`, with `NotImplementedError` |
| FiniteDiff.CenDiffDerivShape | infinite_diff/finite_diff.py:122-125 | labels `1 .. n-2` without edges; all input labels with edges |
| FiniteDiff.CenDiffOfLinear | infinite_diff/finite_diff.py:122-125 | the centered difference of `c*x + b` is `c` times that of the coordinate |
| FiniteDiff.CenDiffDerivOfLinear | infinite_diff/finite_diff.py:122-125 | the centered derivative of `c*x + b` is `c` everywhere, with or without edges |
| FiniteDiff.CenDiffLabelsOf | infinite_diff/finite_diff.py:60-69 | the labels start at 0 with edges and at 1 without |
| FiniteDiff.CenDiffOfConstant | infinite_diff/finite_diff.py:60-69 | a constant field has zero centered difference |
| FiniteDiff.CenDiffDerivOfConstant | infinite_diff/finite_diff.py:122-125 | over increasing coordinates, a constant field has zero centered derivative |
| FiniteDiff.UpwindAdvection | infinite_diff/finite_diff.py:127-137 | every call fails with `TypeError`: the one-sided derivatives take no `order` argument |
| Centered.OneSided.Diff | infinite_diff/diff/centered.py:49-50 | the one-sided engines: spacing < 1 fails; an array of at most `spacing` samples fails as too short; otherwise the step difference, labelled low (forward) or high (backward) |
| Centered.Init | infinite_diff/diff/centered.py:9-12 | the backward and forward engines are built on the same array |
| Centered.CenDiff.DiffEdge | infinite_diff/diff/centered.py:14-26 | a side other than left or right fails with `AttributeError`; a valid side on an array of fewer than 2 samples fails as too short |
| Centered.DiffEdgeLeft | infinite_diff/diff/centered.py:16-18 | the left edge is the unit-step forward difference of the first `spacing+1` samples: `spacing` cells, `a[k+1] - a[k]` at label k |
| Centered.DiffEdgeRight | infinite_diff/diff/centered.py:19-21 | the right edge is the unit-step backward difference of the last `spacing+1` samples: `spacing` cells, each at its upper label |
| Centered.EdgeCells | infinite_diff/diff/centered.py:14-26 | at spacing 1, each edge is a single cell at label 0 or n-1 |
| Centered.CenDiff.Diff | infinite_diff/diff/centered.py:43-58 | spacing < 1 and too-short arrays fail with the matching errors; otherwise it succeeds |
| Centered.CenDiff.DiffFilling | infinite_diff/diff/centered.py:43-58 | the same error cases, for explicit left/right fill flags |
| Centered.CenDiff.Interior | infinite_diff/diff/centered.py:47-50 | spacing < 1 fails with `ValueError`; otherwise succeeds exactly when the array has more than `2*spacing` samples |
| Centered.CenDiff.FillEdges | infinite_diff/diff/centered.py:52-57 | fails only when an edge is asked for on an array of fewer than 2 samples; otherwise the interior unchanged in the middle, with one sample before it for the left edge and one after it for the right edge |
| Centered.StencilAt | infinite_diff/diff/centered.py:47-50 | the stencil sample at label `s+k` is `a[k+2s] - a[k]` |
| Centered.StencilEnds | infinite_diff/diff/centered.py:47-50 | the stencil covers labels `s .. n-1-s` |
| Centered.InteriorIsStencil | infinite_diff/diff/centered.py:47-50 | forward diff of `a[s:]` plus backward diff of `a[:-s]`, both at spacing s, is the stencil |
| Centered.EngineDiffs | infinite_diff/diff/centered.py:49-50 | the two engine calls succeed and give the step differences |
| Centered.InteriorOfDiff | infinite_diff/diff/centered.py:47-50 | the interior is the stencil |
| Centered.DiffFillingIsStencil | infinite_diff/diff/centered.py:47-57 | the result is the optional left edge, then the stencil, then the optional right edge |
| Centered.DiffIsStencil | infinite_diff/diff/centered.py:43-58 | the same, in terms of the `fill_edge` argument |
| Centered.DiffLength | infinite_diff/diff/centered.py:43-58 | the length is `n - 2s` plus one per filled edge |
| Centered.LeftEdgeFilledIff | infinite_diff/diff/centered.py:52-54 | the first label is 0 exactly when `fill_edge` is `'left'` or `'both'` |
| Centered.RightEdgeFilledIff | infinite_diff/diff/centered.py:55-57 | the last label is n-1 exactly when `fill_edge` is the tuple `('right', 'both')` |
| Centered.BoolFillsNothing | infinite_diff/diff/centered.py:52-58 | `True` and `False` both give the bare interior |
| Centered.BothLeavesRightEdgeOpen | infinite_diff/diff/centered.py:55-57 | `'both'` at spacing 1 gives n-1 samples: the right edge is missing |
| Centered.CenDiff.DiffAsIntended | infinite_diff/diff/centered.py:30-58 | the documented policy: same success conditions as the code |
| Centered.DiffAsIntendedKeepsShape | infinite_diff/diff/centered.py:33-38 | with `True` or `'both'` at spacing 1 the result has exactly the input's labels |
| Centered.CenDiff.DiffEdgeAsIntended | infinite_diff/diff/centered.py:22-24 | a bad side fails with a `ValueError` naming it; otherwise as the code |
| Centered.BadSideMisreported | infinite_diff/diff/centered.py:22-24 | as written a bad side raises `AttributeError`; as intended, `ValueError` |
| Coordinates.PrepDim | infinite_diff/coord/coord.py:5-13 | succeeds exactly when the requested dimension is one of the array's, returning it; otherwise `ValueError` naming it and the array's dimensions |
| Coordinates.PrepDimAsIntended | infinite_diff/coord/coord.py:10-12 | also succeeds with no dimension on a one-dimensional array, returning its only dimension |
| Coordinates.SingletonNeverInferred | infinite_diff/coord/coord.py:10-12 | as written a one-dimensional array with no dimension fails; as intended it gives its only dimension |
| Coordinates.NewCoord | infinite_diff/coord/coord.py:15-18 | stores the array and the flag; success and errors exactly as the corrected dimension check |
| Coordinates.Coord.GetItem | infinite_diff/coord/coord.py:20-21 | indexing a coordinate is indexing its array, `KeyError` included |
| Coordinates.OwnDimIndexes | infinite_diff/coord/coord.py:15-21 | on a well-formed array, a coordinate indexed by its own dimension gives that dimension's coordinate |
| Coordinates.Coord.DerivPrefactor | infinite_diff/coord/coord.py:23-24 | always `NotImplementedError` |
| Coordinates.Coord.DerivFactor | infinite_diff/coord/coord.py:26-27 | always `NotImplementedError` |
| Upwinding.Upwind.DerivsBwdFwd | infinite_diff/advec/phys.py:28-40 | both engines are called with the same arguments; success iff both succeed; the pair is then edge-swapped over `order*spacing` samples |
| Upwinding.SwapEdges | infinite_diff/advec/phys.py:37-40 | the swapped pair has no more samples than the two derivatives together |
| Upwinding.SwapEdgesAt | infinite_diff/advec/phys.py:29-40 | for derivatives over the whole line: after the swap both keep their length; the backward one takes the forward values on the first w samples, the forward one takes the backward values on the last w |
| Upwinding.SwapEdgesConsecutive | infinite_diff/advec/phys.py:29-40 | for derivatives over the whole line, the swap keeps the labels |
| Upwinding.SwapTruncatedAt | infinite_diff/advec/phys.py:29-40 | for derivatives cut short by w samples on the side they cannot reach: the swap completes both to the whole line, the backward one with the forward values on the first w labels, the forward one with the backward values on the last w |
| Upwinding.SwapTruncatedConsecutive | infinite_diff/advec/phys.py:29-40 | for such derivatives, both swapped ones carry the flow's labels |
| Upwinding.FlowNegPos | infinite_diff/advec/phys.py:53 | both parts have the flow's length |
| Upwinding.FlowSplitAt | infinite_diff/advec/phys.py:53 | the negative and non-negative parts of the flow keep labels and add up to the flow |
| Upwinding.Blend | infinite_diff/advec/phys.py:54 | `pos*bwd + neg*fwd` has at most the flow's samples |
| Upwinding.SplitChoosesUpwind | infinite_diff/advec/phys.py:46-54 | with the flow split into its negative and non-negative parts, `pos*bwd + neg*fwd` is the upwind choice |
| Upwinding.BlendAt | infinite_diff/advec/phys.py:44-53 | `pos*bwd + neg*fwd` is, sample by sample, the backward term for non-negative flow and the forward term for negative flow |
| Upwinding.BlendOfSwappedAt | infinite_diff/advec/phys.py:51-53 | on aligned inputs the blend of the swapped pair is the reference upwind value at each label |
| Upwinding.UpwindAtCases | infinite_diff/advec/phys.py:29-40 | forward derivative on the first w samples and backward on the last w, whatever the sign of the flow; the upwind choice in between |
| Upwinding.BlendOfTruncatedAt | infinite_diff/advec/phys.py:51-54 | on derivatives cut short by `order*spacing` samples, the blend of the swapped pair has the flow's length and is the reference upwind value at each label |
| Upwinding.Upwind.Blended | infinite_diff/advec/phys.py:52-54 | succeeds exactly when both derivatives do; at most the flow's samples |
| Upwinding.Upwind.Advec | infinite_diff/advec/phys.py:42-58 | an engine's failure is passed on; no attributes gives `AttributeError`; with edges not filled, a dimension the array lacks gives `ValueError` (from the positional selection); otherwise success, with at most the flow's samples |
| Upwinding.AdvecFilledAt | infinite_diff/advec/phys.py:51-58 | with edges filled: the flow's length and labels, the reference upwind value everywhere |
| Upwinding.TrimAt | infinite_diff/advec/phys.py:55-57 | cutting `order` samples from each end leaves `max(0, n - 2*order)` |
| Upwinding.AdvecTrimmedAt | infinite_diff/advec/phys.py:54-57 | with edges not filled, along the differenced dimension, for derivatives over the whole line (cyclic engines): `max(0, n - 2*order)` samples, those from `order` on, each the reference value |
| Upwinding.AdvecTruncatedAt | infinite_diff/advec/phys.py:54-57 | the same for derivatives cut short by `order*spacing` samples (engines that neither wrap nor fill edges): `max(0, n - 2*order)` samples, those from `order` on, each the reference value on the truncated pair |
| Upwinding.ZeroFlowBlend | infinite_diff/advec/phys.py:52-53 | zero flow blends to zero, whatever the derivatives |
| Upwinding.AdvecZeroFlow | infinite_diff/advec/phys.py:42-58 | advection by a zero flow is zero whenever it succeeds |
| Upwinding.NewPhysUpwind | infinite_diff/advec/phys.py:15-26 | both engines get all arguments (cyclic defaulting to False) and differ only in direction; no attributes are set |
| Upwinding.PhysUpwindNotImplemented | infinite_diff/advec/phys.py:15-40 | the generic scheme always fails with `NotImplementedError` |
| Upwinding.ResolveAttrs | infinite_diff/advec/phys.py:75-76 | the dimension defaults to the class one; the coordinate defaults to the array's class-dimension coordinate, `KeyError` when missing |
| Upwinding.NewLonUpwind | infinite_diff/advec/phys.py:67-87 | stores the flow, array, spacing, order and edge flag as passed, with the dimension and coordinate defaulted as above to longitude; engines get the raw `dim` and `coord` and cyclic True by default, and differ only in direction |
| Upwinding.NewLatUpwind | infinite_diff/advec/phys.py:96-116 | the same attributes with latitude as the default; the engines get no cyclic flag |
| Upwinding.NewHybridWith | infinite_diff/advec/phys.py:125-146 | hybrid engines get array, coefficients, surface pressure, spacing, order and edge flag, no dimension or coordinate; attributes resolved from the class dimension |
| Upwinding.NewHybrid | infinite_diff/advec/phys.py:119-160 | as written, all three hybrid schemes default their dimension to the levels |
| Upwinding.ConstPDiffersOnlyInMethod | infinite_diff/advec/phys.py:149-160 | the constant-pressure schemes equal the vertical one except for the engine class and the method `d_dx_const_p` or `d_dy_const_p` |
| Upwinding.ConstPCutsWrongAxis | infinite_diff/advec/phys.py:119-160 | as written, a constant-pressure scheme with no dimension has the levels as dimension, so with edges not filled it leaves its own line uncut |
| Upwinding.NewHybridAsIntended | infinite_diff/advec/phys.py:149-160 | with no dimension given, the scheme's dimension is the one its engines difference along |
| Upwinding.ConstPAsIntendedTrims | infinite_diff/advec/phys.py:149-160 | corrected, with edges not filled the result has `max(0, n - 2*order)` samples, whether the engines return the whole line or cut it short by `order*spacing` |
| Upwinding.NewSphereEtaUpwind | infinite_diff/advec/phys.py:168-179 | stores the configuration and the array's latitude coordinate; `KeyError` when there is none |
| Upwinding.SphereEtaUpwind.AdvecXConstP | infinite_diff/advec/phys.py:181-183 | the zonal term is the longitude constant-pressure scheme on `u` with the stored configuration, advected with no argument; construction errors are passed on; at most `u`'s samples |
| Upwinding.SphereEtaUpwind.AdvecYConstP | infinite_diff/advec/phys.py:185-187 | the meridional term is the latitude constant-pressure scheme on `v`, advected with `oper='grad'`; construction errors are passed on; at most `v`'s samples |
| Upwinding.SphereEtaUpwind.AdvecHorizConstP | infinite_diff/advec/phys.py:189-190 | succeeds exactly when both terms do, and is then their sum |
| Upwinding.SphereEtaUpwind.AdvecZ | infinite_diff/advec/phys.py:192-196 | the vertical term is the hybrid vertical scheme on `omega`, advected with no argument |
| Upwinding.SphereEtaUpwind.Advec3D | infinite_diff/advec/phys.py:198-199 | succeeds exactly when the horizontal and vertical terms do, and is then their sum |
| Upwinding.SphereTermsZeroFlow | infinite_diff/advec/phys.py:181-196 | the zonal, meridional and vertical terms vanish for a zero flow |
| Upwinding.Advec3DOfTerms | infinite_diff/advec/phys.py:189-199 | horizontal = zonal + meridional; 3-D = horizontal + vertical; success iff every term succeeds; zero for zero flows |

## Left out

- Fields are one-dimensional. The other dimensions of an array are independent slices and are not modelled, and neither is broadcasting.
- Floating point is modelled with exact reals. A division by zero gives 0 instead of `inf` or `nan`.
- Dimension names are the constants `Lon`, `Lat` and `Pfull`. Their string values live in `_constants.py`, which is not part of this model.
- `advec/upwind.py` (the `Upwind` base) is not part of this model. `_flow_neg_pos` is modelled as the flow clipped at zero, with zeros elsewhere (`Upwinding.FlowNegPos`). `_swap_bwd_fwd_edges` is modelled by label, with width `order*spacing` (`Upwinding.SwapEdges`): the edges are the first and last `w` labels of the line the two derivatives span together, and each swapped derivative takes the other's samples there. A label is located in a derivative by counting from that derivative's first label, which is exact for the consecutive labels a derivative along one dimension carries.
- Upwinding.AdvecTrimmedAt: covers only derivatives returned over the whole line (cyclic engines, or engines that fill their edges). Non-cyclic engines that do not fill edges return one derivative cut short on each side; that case is `Upwinding.AdvecTruncatedAt`. Other shapes of engine output are not covered.
- The base `FiniteDiff`, `FwdDiff` and `BwdDiff` classes of `diff/` are not part of this model. Their `diff`, `_find_arr`, `_check_spacing`, `_check_arr_len` and `_slice_arr_dim` are given the bodies their names and use describe (`Centered.OneSided`, `Centered.CenDiff.FindArr`).
- The `deriv` package is not part of this model. The derivative engines are a parameter, `Upwinding.Evaluator`: whatever a concrete engine's method returns for given constructor arguments. The generic `PhysDeriv` raises `NotImplementedError` (`Upwinding.Derive`). Metric terms on the sphere and the constant-pressure transform come with the engines and are not modelled. Errors the engine constructors would raise when a scheme is built surface only when the scheme is advected, as failures of `Upwinding.Derive`.
- Upwinding.Upwind.Advec: the cut with edges not filled is modelled only along the line being differenced. When the scheme's dimension is another one, that other axis is cut in the source. In this one-dimensional model that axis does not exist, so the line is returned whole. The edge swap is always applied along the differenced line, even when the scheme's dimension is another axis.
- Upwinding.Upwind.Advec: the keyword arguments forwarded to the engines are reduced to `oper`. The only other call site passes none.
- Coordinates.Coord.GetItem: keys are dimensions only. Integer and slice indexing of the wrapped array are not modelled.
- Labels are sample positions. The labelled-array library aligns on coordinate values and refuses duplicates; the model joins on positions, which are always distinct.
- Labelled.Array.Get: indexing an array by a dimension that has no coordinate raises `KeyError`. The library instead returns a default integer index. `Upwinding.ResolveAttrs`, `Upwinding.NewSphereEtaUpwind` and `Coordinates.Coord.GetItem` inherit this.
- Coordinates.NewCoord: uses the corrected dimension check (`Coordinates.PrepDimAsIntended`). As written, `Coord(arr)` on a one-dimensional array without a dimension raises `ValueError` (coord.py:17 calls `_prep_dim`, see Findings).
- Upwinding.SphereEtaUpwind: its terms build the constant-pressure schemes with the corrected class dimension (`Upwinding.NewHybridAsIntended`). As written (phys.py:181-187), they take the levels as their dimension (see Findings).
- The test suite's calls that pass `cyclic=` to `EtaUpwind` and its subclasses (which take no such argument) are not modelled.

## Findings

| source | as written | input that shows it | evidently intended | confidence | as-written member | corrected member |
|---|---|---|---|---|---|---|
| infinite_diff/diff/centered.py:55 | `fill_edge == ('right', 'both')` compares with a tuple, and `True` is in neither tuple | `CenDiff(a, d).diff(fill_edge='both')` on 3 samples gives 2, with no right edge | `fill_edge in ('right', 'both')`, with `True` filling both edges as the docstring says | not executed | Centered.BothLeavesRightEdgeOpen | Centered.DiffAsIntendedKeepsShape |
| infinite_diff/diff/centered.py:23-24 | `.format(side)` is applied to the exception, not to the message | `_diff_edge(side='middle')` raises `AttributeError` | a `ValueError` naming the side | not executed | Centered.BadSideMisreported | Centered.CenDiff.DiffEdgeAsIntended |
| infinite_diff/coord/coord.py:11 | `self._arr.shape == 1` compares a tuple with an integer | `Coord(arr)` on a one-dimensional array raises `ValueError` | a one-dimensional array's only dimension is taken when none is named | not executed | Coordinates.SingletonNeverInferred | Coordinates.PrepDimAsIntended |
| infinite_diff/advec/phys.py:149-160 | `LonUpwindConstP` and `LatUpwindConstP` inherit the class dimension of the levels | `LonUpwindConstP(u, arr, pk, bk, ps, fill_edge=False).advec()` cuts the levels and leaves longitude whole; indiff/test/test_advec_phys.py:161 sets the expected `_DIM = LON_STR` and :172 asserts it | the class dimension is longitude or latitude | not executed | Upwinding.ConstPCutsWrongAxis | Upwinding.ConstPAsIntendedTrims |

`Coordinates.NewCoord` and `Upwinding.SphereEtaUpwind` use the corrected definitions of the last two rows.
