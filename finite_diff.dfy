/** The differencing primitives of `FiniteDiff` and the derivatives built
    from them, along one dimension. */
module FiniteDiff {
  import opened Common
  import opened Labelled

  /** `fwd_diff1`: the difference of each pair of neighbours, labelled with
      the lower sample of the pair. */
  function FwdDiff1(f: Field): (r: Field)
    ensures |r| == if f == [] then 0 else |f| - 1
    ensures forall k {:trigger r[k]} :: 0 <= k < |r| ==> r[k] == Cell(f[k].pos, f[k].x, f[k + 1].v - f[k].v)
  {
    StepDiff(f, 1, Lower)
  }

  /** `bwd_diff1`: the same differences, labelled with the upper sample. */
  function BwdDiff1(f: Field): (r: Field)
    ensures |r| == if f == [] then 0 else |f| - 1
    ensures forall k {:trigger r[k]} :: 0 <= k < |r| ==> r[k] == Cell(f[k + 1].pos, f[k + 1].x, f[k + 1].v - f[k].v)
  {
    StepDiff(f, 1, Upper)
  }

  /** `cen_diff`: the forward difference of the array without its first
      `spacing` samples plus the backward difference of the array without its
      last `spacing` samples, aligned on their labels; optionally framed by a
      one-sided difference of the first two and of the last two samples. */
  function CenDiff(f: Field, spacing: int, edges: bool): (r: Result<Field>)
    ensures r.Failure? <==> spacing < 1
    ensures r.Failure? ==> r.error == ValueError(SpacingBelowOne)
  {
    if spacing < 1 then Failure(ValueError(SpacingBelowOne))
    else
      var diff := CenInterior(f, spacing);
      if edges then
        Success(FwdDiff1(ISel(f, 0, Some(2))) + diff + BwdDiff1(ISel(f, -2, None)))
      else
        Success(diff)
  }

  /** The sum of the two one-sided halves that `cen_diff` computes. */
  function CenInterior(f: Field, spacing: int): (r: Field)
    ensures 1 <= spacing ==> |r| <= Max(0, |f| - spacing - 1)
  {
    var left := ISel(f, 0, Some(-spacing));
    var right := ISel(f, spacing, None);
    Add(FwdDiff1(right), BwdDiff1(left))
  }

  /** Without edges, `cen_diff` covers the labels `spacing .. n-1-spacing`, and
      at each of them it is the sum of the forward difference there and the
      backward difference one label down: the difference of the two
      NEIGHBOURS, whatever the spacing. */
  lemma CenDiffInterior(f: Field, s: int)
    requires Indexed(f) && s >= 1
    ensures CenDiff(f, s, false).Success?
    ensures var r := CenDiff(f, s, false).value;
      && |r| == Max(0, |f| - 2 * s)
      && Consecutive(r, s)
      && forall k :: 0 <= k < |r| ==>
           && r[k].x == f[s + k].x
           && r[k].v == f[s + k + 1].v - f[s + k - 1].v
           && r[k].v == FwdDiff1(f)[s + k].v + BwdDiff1(f)[s + k - 1].v
  {
    if |f| > 2 * s {
      CenDiffLong(f, s);
    } else {
      CenDiffShort(f, s);
    }
  }

  lemma CenDiffLong(f: Field, s: int)
    requires Indexed(f) && s >= 1 && |f| > 2 * s
    ensures var r := CenDiff(f, s, false).value;
      && |r| == |f| - 2 * s
      && Consecutive(r, s)
      && forall k :: 0 <= k < |r| ==>
           && r[k].x == f[s + k].x
           && r[k].v == f[s + k + 1].v - f[s + k - 1].v
           && r[k].v == FwdDiff1(f)[s + k].v + BwdDiff1(f)[s + k - 1].v
  {
    var n := |f|;
    assert ISel(f, s, None) == f[s..] && ISel(f, 0, Some(-s)) == f[..n - s];
    assert CenDiff(f, s, false).value == Add(FwdDiff1(f[s..]), BwdDiff1(f[..n - s]));
    JoinOfHalves(f, s);
  }

  lemma JoinOfHalves(f: Field, s: int)
    requires Indexed(f) && s >= 1 && |f| > 2 * s
    ensures var r := Add(FwdDiff1(f[s..]), BwdDiff1(f[..|f| - s]));
      && |r| == |f| - 2 * s
      && Consecutive(r, s)
      && forall k :: 0 <= k < |r| ==>
           && r[k].x == f[s + k].x
           && r[k].v == f[s + k + 1].v - f[s + k - 1].v
           && r[k].v == FwdDiff1(f)[s + k].v + BwdDiff1(f)[s + k - 1].v
  {
    var n := |f|;
    var fr, bl := FwdDiff1(f[s..]), BwdDiff1(f[..n - s]);
    assert Consecutive(fr, s);
    assert Consecutive(bl, 1);
    JoinConsecutive(fr, s, bl, 1, Plus);
    var r := Add(fr, bl);
    assert JoinShape(r, fr, s, bl, 1, Plus, s, n - s);
    forall k | 0 <= k < |r|
      ensures r[k].x == f[s + k].x && r[k].v == f[s + k + 1].v - f[s + k - 1].v
      ensures r[k].v == FwdDiff1(f)[s + k].v + BwdDiff1(f)[s + k - 1].v
    {
      assert r[k] == Cell(s + k, fr[s - s + k].x, Apply(Plus, fr[s - s + k].v, bl[s - 1 + k].v));
      assert fr[k].v == f[s + k + 1].v - f[s + k].v;
      assert bl[s - 1 + k].v == f[s + k].v - f[s + k - 1].v;
      assert FwdDiff1(f)[s + k].v == f[s + k + 1].v - f[s + k].v;
      assert BwdDiff1(f)[s + k - 1].v == f[s + k].v - f[s + k - 1].v;
    }
  }

  lemma CenDiffShort(f: Field, s: int)
    requires Indexed(f) && s >= 1 && |f| <= 2 * s
    ensures CenDiff(f, s, false).value == []
  {
    var n := |f|;
    var left, right := ISel(f, 0, Some(-s)), ISel(f, s, None);
    var br := PyIndex(s, n);
    assert |left| == Max(0, n - s);
    assert Consecutive(right, br);
    assert Consecutive(left, 0);
    var fr, bl := FwdDiff1(right), BwdDiff1(left);
    assert Consecutive(fr, br);
    assert Consecutive(bl, 1);
    JoinConsecutive(fr, br, bl, 1, Plus);
  }

  /** With edges, the result is the interior framed by `f[1] - f[0]` at label 0
      and `f[n-1] - f[n-2]` at label n-1; an array shorter than two samples
      gives nothing. */
  lemma CenDiffEdges(f: Field, s: int)
    requires Indexed(f) && s >= 1
    ensures CenDiff(f, s, true).Success?
    ensures var r := CenDiff(f, s, true).value;
      var inner := CenDiff(f, s, false).value;
      var n := |f|;
      && (n < 2 ==> r == [])
      && (n >= 2 ==>
            && r == [Cell(0, f[0].x, f[1].v - f[0].v)] + inner + [Cell(n - 1, f[n - 1].x, f[n - 1].v - f[n - 2].v)]
            && |r| == 2 + Max(0, n - 2 * s))
  {
    var n := |f|;
    CenDiffInterior(f, s);
    var lo, hi := ISel(f, 0, Some(2)), ISel(f, -2, None);
    var inner := CenInterior(f, s);
    assert CenDiff(f, s, true).value == FwdDiff1(lo) + inner + BwdDiff1(hi);
    if n < 2 {
      assert |lo| <= 1 && |hi| <= 1;
    } else {
      EdgeDiffs(f);
    }
  }

  /** The one-sided differences `cen_diff` puts at the two ends. */
  lemma EdgeDiffs(f: Field)
    requires Indexed(f) && |f| >= 2
    ensures FwdDiff1(ISel(f, 0, Some(2))) == [Cell(0, f[0].x, f[1].v - f[0].v)]
    ensures BwdDiff1(ISel(f, -2, None)) == [Cell(|f| - 1, f[|f| - 1].x, f[|f| - 1].v - f[|f| - 2].v)]
  {
    var n := |f|;
    assert ISel(f, 0, Some(2)) == [f[0], f[1]];
    assert ISel(f, -2, None) == [f[n - 2], f[n - 1]];
  }

  /** With spacing 1 and edges, the result has exactly the labels of the input. */
  lemma CenDiffEdgesKeepShape(f: Field)
    requires Indexed(f) && |f| >= 2
    ensures |CenDiff(f, 1, true).value| == |f| && Indexed(CenDiff(f, 1, true).value)
  {
    CenDiffEdges(f, 1);
    CenDiffInterior(f, 1);
    var r := CenDiff(f, 1, true).value;
    var inner := CenDiff(f, 1, false).value;
    forall k | 0 <= k < |r| ensures r[k].pos == k {
      if 0 < k < |r| - 1 {
        assert r[k] == inner[k - 1];
      }
    }
  }

  /** `fwd_diff_deriv`: forward difference of the array over forward
      difference of its coordinate. */
  function FwdDiffDeriv(f: Field): (r: Field)
    ensures |r| <= Max(0, |f| - 1)
  {
    Div(FwdDiff1(f), FwdDiff1(CoordOf(f)))
  }

  /** `bwd_diff_deriv`: backward difference of the array over backward
      difference of its coordinate. */
  function BwdDiffDeriv(f: Field): (r: Field)
    ensures |r| <= Max(0, |f| - 1)
  {
    Div(BwdDiff1(f), BwdDiff1(CoordOf(f)))
  }

  /** The difference quotient between samples `i` and `j`. */
  function Slope(f: Field, i: int, j: int): real
    requires 0 <= i < |f| && 0 <= j < |f|
  {
    Apply(Over, f[j].v - f[i].v, f[j].x - f[i].x)
  }

  /** The forward derivative has one sample fewer than the input, labelled
      like the lower sample of each pair, and each is the slope from that
      sample to the next. */
  lemma FwdDiffDerivShape(f: Field)
    requires Indexed(f)
    ensures var r := FwdDiffDeriv(f);
      && |r| == Max(0, |f| - 1)
      && Indexed(r)
      && forall k :: 0 <= k < |r| ==> r[k].x == f[k].x && r[k].v == Slope(f, k, k + 1)
  {
    FwdDerivLength(f);
    forall k | 0 <= k < |FwdDiffDeriv(f)| {
      FwdDiffDerivAt(f, k);
    }
  }

  lemma FwdDerivLength(f: Field)
    requires Indexed(f)
    ensures |FwdDiffDeriv(f)| == Max(0, |f| - 1)
  {
    JoinAlignedLabels(FwdDiff1(f), FwdDiff1(CoordOf(f)), 0, Over);
  }

  lemma BwdDerivLength(f: Field)
    requires Indexed(f)
    ensures |BwdDiffDeriv(f)| == Max(0, |f| - 1)
  {
    JoinAlignedLabels(BwdDiff1(f), BwdDiff1(CoordOf(f)), 1, Over);
  }

  lemma FwdDiffDerivAt(f: Field, k: int)
    requires Indexed(f) && 0 <= k < |f| - 1
    ensures |FwdDiffDeriv(f)| == |f| - 1 && FwdDiffDeriv(f)[k] == Cell(k, f[k].x, Slope(f, k, k + 1))
  {
    var a, g := FwdDiff1(f), FwdDiff1(CoordOf(f));
    JoinAlignedAt(a, g, 0, Over, k);
    assert a[k].v == f[k + 1].v - f[k].v && g[k].v == f[k + 1].x - f[k].x;
  }

  /** The backward derivative has the same slopes, labelled like the upper
      sample of each pair. */
  lemma BwdDiffDerivShape(f: Field)
    requires Indexed(f)
    ensures var r := BwdDiffDeriv(f);
      && |r| == Max(0, |f| - 1)
      && Consecutive(r, 1)
      && forall k :: 0 <= k < |r| ==> r[k].x == f[k + 1].x && r[k].v == Slope(f, k, k + 1)
  {
    BwdDerivLength(f);
    forall k | 0 <= k < |BwdDiffDeriv(f)| {
      BwdDiffDerivAt(f, k);
    }
  }

  lemma BwdDiffDerivAt(f: Field, k: int)
    requires Indexed(f) && 0 <= k < |f| - 1
    ensures |BwdDiffDeriv(f)| == |f| - 1 && BwdDiffDeriv(f)[k] == Cell(k + 1, f[k + 1].x, Slope(f, k, k + 1))
  {
    var a, g := BwdDiff1(f), BwdDiff1(CoordOf(f));
    JoinAlignedAt(a, g, 1, Over, k);
    assert a[k].v == f[k + 1].v - f[k].v && g[k].v == f[k + 1].x - f[k].x;
  }

  /** Division of a field proportional to another by that other. */
  lemma QuotientOfProportional(a: Field, b: Field, base: int, c: real)
    requires Consecutive(a, base) && Consecutive(b, base) && Proportional(a, b, c)
    ensures AllEqual(Div(a, b), c)
  {
    JoinAligned(a, b, base, Over);
    var r := Div(a, b);
    forall k | 0 <= k < |r| ensures r[k].v == c {
      ProportionalAt(a, b, c, k);
    }
  }

  lemma ProportionalAt(a: Field, b: Field, c: real, k: int)
    requires Proportional(a, b, c) && 0 <= k < |a|
    ensures Apply(Over, a[k].v, b[k].v) == c
  {
    QuotientOfMultiple(a[k].v, b[k].v, c);
  }

  lemma QuotientOfMultiple(x: real, d: real, c: real)
    requires d != 0.0 && x == Scale(c, d)
    ensures Apply(Over, x, d) == c
  {
  }

  /** A field `c * x + b` over increasing coordinates has forward and
      backward derivatives equal to `c` everywhere. */
  lemma OneSidedDerivOfLinear(f: Field, c: real, b: real)
    requires Indexed(f) && Increasing(f) && Linear(f, c, b)
    ensures AllEqual(FwdDiffDeriv(f), c) && AllEqual(BwdDiffDeriv(f), c)
  {
    var g := CoordOf(f);
    FwdDiffsOfLinear(f, c, b);
    BwdDiffsOfLinear(f, c, b);
    QuotientOfProportional(FwdDiff1(f), FwdDiff1(g), 0, c);
    QuotientOfProportional(BwdDiff1(f), BwdDiff1(g), 1, c);
  }

  /** The forward differences of `c * x + b` are `c` times those of `x`,
      which are nonzero on increasing coordinates. */
  lemma FwdDiffsOfLinear(f: Field, c: real, b: real)
    requires Increasing(f) && Linear(f, c, b)
    ensures Proportional(FwdDiff1(f), FwdDiff1(CoordOf(f)), c)
  {
    forall k | 0 <= k < |FwdDiff1(f)| {
      DiffOfLinearAt(f, c, b, k);
    }
  }

  /** The same for the backward differences. */
  lemma BwdDiffsOfLinear(f: Field, c: real, b: real)
    requires Increasing(f) && Linear(f, c, b)
    ensures Proportional(BwdDiff1(f), BwdDiff1(CoordOf(f)), c)
  {
    forall k | 0 <= k < |BwdDiff1(f)| {
      DiffOfLinearAt(f, c, b, k);
    }
  }

  lemma DiffOfLinearAt(f: Field, c: real, b: real, k: int)
    requires Increasing(f) && Linear(f, c, b) && 0 <= k < |f| - 1
    ensures FwdDiff1(CoordOf(f))[k].v != 0.0 && FwdDiff1(f)[k].v == Scale(c, FwdDiff1(CoordOf(f))[k].v)
    ensures BwdDiff1(CoordOf(f))[k].v != 0.0 && BwdDiff1(f)[k].v == Scale(c, BwdDiff1(CoordOf(f))[k].v)
  {
    var g := CoordOf(f);
    var x, y := f[k + 1].v - f[k].v, f[k + 1].x - f[k].x;
    LinearStep(f, c, b, k, k + 1, x, y);
    assert FwdDiff1(f)[k].v == x && FwdDiff1(g)[k].v == y;
    assert BwdDiff1(f)[k].v == x && BwdDiff1(g)[k].v == y;
  }

  /** Between two samples of `c * x + b` over increasing coordinates, the
      value changes by `c` times the (positive) change of coordinate. */
  lemma LinearStep(f: Field, c: real, b: real, i: int, j: int, dv: real, dx: real)
    requires Increasing(f) && Linear(f, c, b) && 0 <= i < j < |f|
    requires dv == f[j].v - f[i].v && dx == f[j].x - f[i].x
    ensures dx > 0.0 && dv == Scale(c, dx)
  {
    IncreasingAt(f, i, j);
    LinearAt(f, c, b, i);
    LinearAt(f, c, b, j);
    assert f[j].v - f[i].v == c * (f[j].x - f[i].x);
  }

  /** A constant field on increasing coordinates (so no step divides by
      zero) has zero forward and backward derivatives. */
  lemma OneSidedDerivOfConstant(f: Field, b: real)
    requires Increasing(f) && AllEqual(f, b)
    ensures AllZero(FwdDiffDeriv(f)) && AllZero(BwdDiffDeriv(f))
  {
    JoinKeepsZero(FwdDiff1(f), FwdDiff1(CoordOf(f)), Over);
    JoinKeepsZero(BwdDiff1(f), BwdDiff1(CoordOf(f)), Over);
  }

  /** `cen_diff_deriv`: only order 2 is supported; it divides the centered
      difference of the array by that of its coordinate, spacing 1, with the
      same edge choice for both. */
  function CenDiffDeriv(f: Field, order: int, edges: bool): (r: Result<Field>)
    ensures r.Failure? <==> order != 2
    ensures r.Failure? ==> r.error == NotImplementedError
  {
    if order != 2 then Failure(NotImplementedError)
    else Success(Div(CenDiff(f, 1, edges).value, CenDiff(CoordOf(f), 1, edges).value))
  }

  /** The centered derivative has the shape of the centered difference: the
      labels `1 .. n-2` without edges, all labels of the input with edges. */
  lemma CenDiffDerivShape(f: Field, edges: bool)
    requires Indexed(f)
    ensures var r := CenDiffDeriv(f, 2, edges).value;
      && |r| == |CenDiff(f, 1, edges).value|
      && (!edges ==> |r| == Max(0, |f| - 2) && Consecutive(r, 1))
      && (edges && |f| >= 2 ==> |r| == |f| && Indexed(r))
      && (edges && |f| < 2 ==> r == [])
  {
    var g := CoordOf(f);
    var num, den := CenDiff(f, 1, edges).value, CenDiff(g, 1, edges).value;
    CenDiffInterior(f, 1);
    CenDiffInterior(g, 1);
    if !edges {
      JoinAligned(num, den, 1, Over);
    } else if |f| >= 2 {
      CenDiffEdgesKeepShape(f);
      CenDiffEdgesKeepShape(g);
      JoinAligned(num, den, 0, Over);
    } else {
      CenDiffEdges(f, 1);
    }
  }

  /** The centered difference of `c * x + b` is `c` times that of `x`, sample by
      sample, with or without edges, on increasing coordinates. */
  lemma CenDiffOfLinear(f: Field, c: real, b: real, edges: bool)
    requires Indexed(f) && Increasing(f) && Linear(f, c, b)
    ensures Proportional(CenDiff(f, 1, edges).value, CenDiff(CoordOf(f), 1, edges).value, c)
  {
    CenDiffSameLength(f, edges);
    forall k | 0 <= k < |CenDiff(f, 1, edges).value| {
      CenDiffOfLinearAt(f, c, b, edges, k);
    }
  }

  lemma CenDiffSameLength(f: Field, edges: bool)
    requires Indexed(f)
    ensures |CenDiff(f, 1, edges).value| == |CenDiff(CoordOf(f), 1, edges).value|
  {
    CenDiffInterior(f, 1);
    CenDiffInterior(CoordOf(f), 1);
    if edges {
      CenDiffEdges(f, 1);
      CenDiffEdges(CoordOf(f), 1);
    }
  }

  lemma CenDiffOfLinearAt(f: Field, c: real, b: real, edges: bool, k: int)
    requires Indexed(f) && Increasing(f) && Linear(f, c, b)
    requires 0 <= k < |CenDiff(f, 1, edges).value|
    ensures k < |CenDiff(CoordOf(f), 1, edges).value|
    ensures CenDiff(CoordOf(f), 1, edges).value[k].v != 0.0
    ensures CenDiff(f, 1, edges).value[k].v == Scale(c, CenDiff(CoordOf(f), 1, edges).value[k].v)
  {
    var i, j := CenPair(f, edges, k);
    LinearStep(f, c, b, i, j, CenDiff(f, 1, edges).value[k].v, CenDiff(CoordOf(f), 1, edges).value[k].v);
  }

  /** The two samples whose difference the centered difference holds at
      place `k`: the neighbours of the sample it is labelled with, or at an
      edge that sample and its one neighbour. */
  lemma CenPair(f: Field, edges: bool, k: int) returns (i: int, j: int)
    requires Indexed(f) && 0 <= k < |CenDiff(f, 1, edges).value|
    ensures 0 <= i < j < |f|
    ensures k < |CenDiff(CoordOf(f), 1, edges).value|
    ensures CenDiff(f, 1, edges).value[k].v == f[j].v - f[i].v
    ensures CenDiff(CoordOf(f), 1, edges).value[k].v == f[j].x - f[i].x
  {
    if edges {
      i, j := EdgePair(f, k);
    } else {
      InteriorPair(f, k);
      i, j := k, k + 2;
    }
  }

  lemma InteriorPair(f: Field, k: int)
    requires Indexed(f) && 0 <= k < |CenDiff(f, 1, false).value|
    ensures k + 2 < |f| && k < |CenDiff(CoordOf(f), 1, false).value|
    ensures CenDiff(f, 1, false).value[k].v == f[k + 2].v - f[k].v
    ensures CenDiff(CoordOf(f), 1, false).value[k].v == f[k + 2].x - f[k].x
  {
    var g := CoordOf(f);
    CenDiffInterior(f, 1);
    CenDiffInterior(g, 1);
    assert CenDiff(g, 1, false).value[k].v == g[k + 2].v - g[k].v;
  }

  lemma EdgePair(f: Field, k: int) returns (i: int, j: int)
    requires Indexed(f) && 0 <= k < |CenDiff(f, 1, true).value|
    ensures 0 <= i < j < |f|
    ensures k < |CenDiff(CoordOf(f), 1, true).value|
    ensures CenDiff(f, 1, true).value[k].v == f[j].v - f[i].v
    ensures CenDiff(CoordOf(f), 1, true).value[k].v == f[j].x - f[i].x
  {
    var n := |f|;
    var g := CoordOf(f);
    CenDiffSameLength(f, true);
    EdgeSample(f, k);
    EdgeSample(g, k);
    if k == 0 {
      i, j := 0, 1;
    } else if k == n - 1 {
      i, j := n - 2, n - 1;
    } else {
      i, j := k - 1, k + 1;
      InteriorPair(f, k - 1);
    }
  }

  /** Sample `k` of the centered difference with edges, at spacing 1. */
  lemma EdgeSample(f: Field, k: int)
    requires Indexed(f) && 0 <= k < |CenDiff(f, 1, true).value|
    ensures var r, n := CenDiff(f, 1, true).value, |f|;
      && n >= 2 && |r| == n
      && (k == 0 ==> r[k].v == f[1].v - f[0].v)
      && (k == n - 1 ==> r[k].v == f[n - 1].v - f[n - 2].v)
      && (0 < k < n - 1 ==> k - 1 < |CenDiff(f, 1, false).value| && r[k] == CenDiff(f, 1, false).value[k - 1])
  {
    CenDiffEdges(f, 1);
    CenDiffInterior(f, 1);
  }

  /** A field `c * x + b` over increasing coordinates has centered derivative
      `c` everywhere, with or without edges. */
  lemma CenDiffDerivOfLinear(f: Field, c: real, b: real, edges: bool)
    requires Indexed(f) && Increasing(f) && Linear(f, c, b)
    ensures AllEqual(CenDiffDeriv(f, 2, edges).value, c)
  {
    CenDiffOfLinear(f, c, b, edges);
    var base := CenDiffLabels(f, edges);
    QuotientOfProportional(CenDiff(f, 1, edges).value, CenDiff(CoordOf(f), 1, edges).value, base, c);
  }

  /** Labels of the centered difference at spacing 1. */
  lemma CenDiffLabels(f: Field, edges: bool) returns (base: int)
    requires Indexed(f)
    ensures Consecutive(CenDiff(f, 1, edges).value, base)
    ensures Consecutive(CenDiff(CoordOf(f), 1, edges).value, base)
  {
    base := if edges then 0 else 1;
    CenDiffLabelsOf(f, edges);
    CenDiffLabelsOf(CoordOf(f), edges);
  }

  lemma CenDiffLabelsOf(f: Field, edges: bool)
    requires Indexed(f)
    ensures Consecutive(CenDiff(f, 1, edges).value, if edges then 0 else 1)
  {
    CenDiffInterior(f, 1);
    if edges && |f| >= 2 {
      CenDiffEdgesKeepShape(f);
    } else if edges {
      CenDiffEdges(f, 1);
    }
  }

  /** The centered difference of a constant field is zero everywhere, with or
      without edges. */
  lemma CenDiffOfConstant(f: Field, b: real, edges: bool)
    requires Indexed(f) && AllEqual(f, b)
    ensures AllZero(CenDiff(f, 1, edges).value)
  {
    forall k | 0 <= k < |CenDiff(f, 1, edges).value| ensures CenDiff(f, 1, edges).value[k].v == 0.0 {
      var i, j := CenPair(f, edges, k);
    }
  }

  /** A constant field on increasing coordinates has zero centered
      derivative, with or without edges. */
  lemma CenDiffDerivOfConstant(f: Field, b: real, edges: bool)
    requires Indexed(f) && Increasing(f) && AllEqual(f, b)
    ensures AllZero(CenDiffDeriv(f, 2, edges).value)
  {
    CenDiffOfConstant(f, b, edges);
    JoinKeepsZero(CenDiff(f, 1, edges).value, CenDiff(CoordOf(f), 1, edges).value, Over);
  }

  /** `upwind_advection` passes `order=` to `bwd_diff_deriv`, which takes no
      such parameter, so every call raises `TypeError`. */
  function UpwindAdvection(f: Field, flow: Field, order: int): (r: Result<Field>)
    ensures r.Failure? && r.error.TypeError?
  {
    Failure(TypeError("bwd_diff_deriv() got an unexpected keyword argument 'order'"))
  }
}
