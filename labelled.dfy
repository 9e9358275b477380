/** A one-dimensional slice of a labelled array, and the few operations of the
    labelled-array library the differencing code relies on: positional
    slicing, differencing of neighbours, elementwise arithmetic that aligns
    its operands on their labels, and concatenation. */
module Labelled {
  import opened Common

  /** A labelled array as the modelled code sees it: its dimension names,
      its shape, its coordinate arrays by name, and the one-dimensional
      slice of its values along the dimension being differenced. */
  datatype Array = Array(dims: seq<Dim>, shape: seq<nat>, coords: map<Dim, Field>, values: Field) {

    /** `arr[key]` for a coordinate name: that coordinate, or a `KeyError`. */
    function Get(key: Dim): (r: Result<Field>)
      ensures r.Success? <==> key in coords
      ensures r.Success? ==> r.value == coords[key]
      ensures r.Failure? ==> r.error == KeyError(key)
    {
      if key in coords then Success(coords[key]) else Failure(KeyError(key))
    }
  }

  /** One sample: its position label (the index it had in the array it was
      cut from), its coordinate value and its data value. */
  datatype Cell = Cell(pos: int, x: real, v: real)

  type Field = seq<Cell>

  /** Which sample of a differenced pair labels the difference. */
  datatype Label = Lower | Upper

  /** Elementwise arithmetic between two fields. */
  datatype Op = Plus | Times | Over

  function Min(a: int, b: int): int { if a <= b then a else b }

  function Max(a: int, b: int): int { if a <= b then b else a }

  /** The labels of `f` are `base`, `base + 1`, ... in order. */
  predicate Consecutive(f: Field, base: int) {
    forall k :: 0 <= k < |f| ==> f[k].pos == base + k
  }

  /** A field as it comes in: every sample labelled with its own index. */
  predicate Indexed(f: Field) {
    Consecutive(f, 0)
  }

  predicate AllEqual(f: Field, c: real) {
    forall k :: 0 <= k < |f| ==> f[k].v == c
  }

  predicate AllZero(f: Field) {
    AllEqual(f, 0.0)
  }

  /** Each value of `a` is `c` times the nonzero value of `d` at the same place. */
  predicate Proportional(a: Field, d: Field, c: real) {
    |a| == |d| && forall k :: 0 <= k < |a| ==> d[k].v != 0.0 && a[k].v == Scale(c, d[k].v)
  }

  /** `c * x`. */
  function Scale(c: real, x: real): real { c * x }

  /** Coordinate values strictly increase along the field: each exceeds the
      one before it. */
  predicate Increasing(f: Field) {
    |f| < 2 || (f[0].x < f[1].x && Increasing(f[1..]))
  }

  /** Along an increasing field every later coordinate exceeds every earlier one. */
  lemma {:induction false} IncreasingAt(f: Field, i: int, j: int)
    requires Increasing(f) && 0 <= i < j < |f|
    ensures f[i].x < f[j].x
  {
    if i == 0 {
      if j > 1 {
        IncreasingAt(f[1..], 0, j - 1);
      }
    } else {
      IncreasingAt(f[1..], i - 1, j - 1);
    }
  }

  /** Every value is `c` times its coordinate plus `b`. */
  predicate Linear(f: Field, c: real, b: real) {
    f == [] || (f[0].v == c * f[0].x + b && Linear(f[1..], c, b))
  }

  lemma {:induction false} LinearAt(f: Field, c: real, b: real, k: int)
    requires Linear(f, c, b) && 0 <= k < |f|
    ensures f[k].v == c * f[k].x + b
  {
    if k > 0 {
      LinearAt(f[1..], c, b, k - 1);
    }
  }

  /** The coordinate of a field, as a field of its own (`arr[dim]`). */
  function CoordOf(f: Field): (r: Field)
    ensures |r| == |f|
    ensures forall k :: 0 <= k < |r| ==> r[k] == Cell(f[k].pos, f[k].x, f[k].x)
  {
    seq(|f|, k requires 0 <= k < |f| => Cell(f[k].pos, f[k].x, f[k].x))
  }

  /** Python's reading of a slice bound `i` for a sequence of length `n`:
      a negative bound counts from the end, and both are clamped to `0..n`. */
  function PyIndex(i: int, n: nat): (r: nat)
    ensures r <= n
    ensures 0 <= i <= n ==> r == i
    ensures i < 0 && 0 <= n + i ==> r == n + i
    ensures n + i < 0 ==> r == 0
    ensures n < i ==> r == n
  {
    if i < 0 then (if n + i < 0 then 0 else n + i) else if i > n then n else i
  }

  /** `arr.isel(dim=slice(start, stop))`; `None` as `stop` runs to the end. */
  function ISel(f: Field, start: int, stop: Option<int>): (r: Field)
    ensures var lo := PyIndex(start, |f|);
      var hi := if stop.None? then |f| else PyIndex(stop.value, |f|);
      |r| == (if hi <= lo then 0 else hi - lo)
    ensures forall k :: 0 <= k < |r| ==> r[k] == f[PyIndex(start, |f|) + k]
  {
    var lo := PyIndex(start, |f|);
    var hi := if stop.None? then |f| else PyIndex(stop.value, |f|);
    if hi <= lo then [] else f[lo..hi]
  }

  /** Difference over `s` steps (for `s == 1`, `arr.diff(dim, n=1, label=...)`):
      element `k` is `f[k + s] - f[k]`, carrying the label and coordinate of the
      lower or of the upper sample of the pair. */
  function StepDiff(f: Field, s: nat, at: Label): (r: Field)
    ensures |r| == if s <= |f| then |f| - s else 0
    ensures forall k {:trigger r[k]} :: 0 <= k < |r| ==>
      r[k].v == f[k + s].v - f[k].v &&
      (at == Lower ==> r[k].pos == f[k].pos && r[k].x == f[k].x) &&
      (at == Upper ==> r[k].pos == f[k + s].pos && r[k].x == f[k + s].x)
  {
    if |f| < s then []
    else
      seq(|f| - s, k requires 0 <= k < |f| - s =>
        var c := if at == Lower then f[k] else f[k + s];
        Cell(c.pos, c.x, f[k + s].v - f[k].v))
  }

  lemma StepDiffConsecutive(f: Field, base: int, s: nat, at: Label)
    requires Consecutive(f, base)
    ensures Consecutive(StepDiff(f, s, at), if at == Lower then base else base + s)
  {
  }

  /** The first sample labelled `p`, if any. */
  function Find(f: Field, p: int): Option<Cell>
  {
    if f == [] then None
    else if f[0].pos == p then Some(f[0])
    else Find(f[1..], p)
  }

  lemma {:induction false} FindConsecutive(f: Field, base: int, p: int)
    requires Consecutive(f, base)
    ensures Find(f, p) == if base <= p < base + |f| then Some(f[p - base]) else None
  {
    if f != [] && f[0].pos != p {
      assert Consecutive(f[1..], base + 1);
      FindConsecutive(f[1..], base + 1, p);
    }
  }

  lemma {:induction false} FindIsMember(f: Field, p: int)
    ensures Find(f, p).Some? ==> Find(f, p).value in f && Find(f, p).value.pos == p
  {
    if f != [] && f[0].pos != p {
      FindIsMember(f[1..], p);
    }
  }

  function Apply(op: Op, a: real, b: real): real
  {
    match op
    case Plus => a + b
    case Times => a * b
    case Over => if b == 0.0 then 0.0 else a / b
  }

  /** A label both operands of an elementwise operation carry, with the
      coordinate and value of the left operand and the value of the right. */
  datatype Pair = Pair(pos: int, x: real, left: real, right: real)

  /** The alignment the labelled-array library performs before elementwise
      arithmetic: an inner join on labels, in the order of `a`. */
  function Align(a: Field, b: Field): (r: seq<Pair>)
    ensures |r| <= |a|
  {
    if a == [] then []
    else
      var head := match Find(b, a[0].pos)
        case Some(c) => [Pair(a[0].pos, a[0].x, a[0].v, c.v)]
        case None => [];
      head + Align(a[1..], b)
  }

  /** Elementwise `a op b`: the operands are aligned on their labels and only
      the labels both carry survive, in the order of `a`. */
  function Join(a: Field, b: Field, op: Op): (r: Field)
    ensures |r| <= |a|
  {
    var p := Align(a, b);
    seq(|p|, k requires 0 <= k < |p| => Cell(p[k].pos, p[k].x, Apply(op, p[k].left, p[k].right)))
  }

  function Add(a: Field, b: Field): Field { Join(a, b, Plus) }

  function Mul(a: Field, b: Field): Field { Join(a, b, Times) }

  function Div(a: Field, b: Field): Field { Join(a, b, Over) }

  lemma JoinAt(a: Field, b: Field, op: Op, k: int)
    requires 0 <= k < |Align(a, b)|
    ensures |Join(a, b, op)| == |Align(a, b)|
    ensures var p := Align(a, b)[k];
      Join(a, b, op)[k] == Cell(p.pos, p.x, Apply(op, p.left, p.right))
  {
  }

  lemma AlignSkip(a: Field, b: Field)
    requires a != [] && Find(b, a[0].pos).None?
    ensures Align(a, b) == Align(a[1..], b)
  {
  }

  lemma AlignTake(a: Field, b: Field, c: Cell)
    requires a != [] && Find(b, a[0].pos) == Some(c)
    ensures Align(a, b) == [Pair(a[0].pos, a[0].x, a[0].v, c.v)] + Align(a[1..], b)
  {
  }

  /** The pairs the alignment of consecutively labelled operands must hold:
      one per label in the overlap `lo..hi` of the two label ranges. */
  predicate AlignShape(r: seq<Pair>, a: Field, ba: int, b: Field, bb: int, lo: int, hi: int)
    requires ba <= lo && bb <= lo && hi <= ba + |a| && hi <= bb + |b|
  {
    && |r| == (if hi <= lo then 0 else hi - lo)
    && forall k :: 0 <= k < |r| ==>
         r[k] == Pair(lo + k, a[lo - ba + k].x, a[lo - ba + k].v, b[lo - bb + k].v)
  }

  /** On consecutively labelled operands the alignment keeps exactly the
      overlap of the two label ranges and pairs the samples that share a label. */
  lemma {:induction false} AlignConsecutive(a: Field, ba: int, b: Field, bb: int)
    requires Consecutive(a, ba) && Consecutive(b, bb)
    ensures AlignShape(Align(a, b), a, ba, b, bb, Max(ba, bb), Min(ba + |a|, bb + |b|))
  {
    if a != [] {
      assert Consecutive(a[1..], ba + 1);
      AlignConsecutive(a[1..], ba + 1, b, bb);
      FindConsecutive(b, bb, ba);
      if ba < bb {
        AlignBelow(a, ba, b, bb);
      } else if ba < bb + |b| {
        AlignInside(a, ba, b, bb);
      } else {
        AlignSkip(a, b);
      }
    }
  }

  lemma {:induction false} AlignBelow(a: Field, ba: int, b: Field, bb: int)
    requires Consecutive(a, ba) && a != [] && ba < bb
    requires Find(b, ba).None?
    requires AlignShape(Align(a[1..], b), a[1..], ba + 1, b, bb, Max(ba + 1, bb), Min(ba + |a|, bb + |b|))
    ensures AlignShape(Align(a, b), a, ba, b, bb, Max(ba, bb), Min(ba + |a|, bb + |b|))
  {
    AlignSkip(a, b);
    var r := Align(a, b);
    var lo := bb;
    forall k | 0 <= k < |r|
      ensures r[k] == Pair(lo + k, a[lo - ba + k].x, a[lo - ba + k].v, b[lo - bb + k].v)
    {
      assert a[1..][lo - (ba + 1) + k] == a[lo - ba + k];
    }
  }

  lemma {:induction false} AlignInside(a: Field, ba: int, b: Field, bb: int)
    requires Consecutive(a, ba) && Consecutive(b, bb) && a != [] && bb <= ba < bb + |b|
    requires Find(b, ba) == Some(b[ba - bb])
    requires AlignShape(Align(a[1..], b), a[1..], ba + 1, b, bb, ba + 1, Min(ba + |a|, bb + |b|))
    ensures AlignShape(Align(a, b), a, ba, b, bb, ba, Min(ba + |a|, bb + |b|))
  {
    AlignTake(a, b, b[ba - bb]);
    var rest := Align(a[1..], b);
    var r := Align(a, b);
    forall k | 0 <= k < |r|
      ensures r[k] == Pair(ba + k, a[k].x, a[k].v, b[ba - bb + k].v)
    {
      if k > 0 {
        assert r[k] == rest[k - 1];
        assert a[1..][k - 1] == a[k];
      }
    }
  }

  /** The samples the join of consecutively labelled operands must hold:
      one per label in the overlap `lo..hi` of the two label ranges. */
  predicate JoinShape(r: Field, a: Field, ba: int, b: Field, bb: int, op: Op, lo: int, hi: int)
    requires ba <= lo && bb <= lo && hi <= ba + |a| && hi <= bb + |b|
  {
    && |r| == (if hi <= lo then 0 else hi - lo)
    && forall k :: 0 <= k < |r| ==>
         r[k] == Cell(lo + k, a[lo - ba + k].x, Apply(op, a[lo - ba + k].v, b[lo - bb + k].v))
  }

  /** On consecutively labelled operands the join keeps exactly the overlap
      of the two label ranges and combines the samples that share a label. */
  lemma JoinConsecutive(a: Field, ba: int, b: Field, bb: int, op: Op)
    requires Consecutive(a, ba) && Consecutive(b, bb)
    ensures JoinShape(Join(a, b, op), a, ba, b, bb, op, Max(ba, bb), Min(ba + |a|, bb + |b|))
  {
    AlignConsecutive(a, ba, b, bb);
    var lo := Max(ba, bb);
    var r := Join(a, b, op);
    forall k | 0 <= k < |r|
      ensures r[k] == Cell(lo + k, a[lo - ba + k].x, Apply(op, a[lo - ba + k].v, b[lo - bb + k].v))
    {
      JoinAt(a, b, op, k);
    }
  }

  /** Operands labelled alike combine sample by sample. */
  lemma JoinAligned(a: Field, b: Field, base: int, op: Op)
    requires Consecutive(a, base) && Consecutive(b, base) && |a| == |b|
    ensures |Join(a, b, op)| == |a| && Consecutive(Join(a, b, op), base)
    ensures forall k :: 0 <= k < |a| ==> Join(a, b, op)[k] == Cell(base + k, a[k].x, Apply(op, a[k].v, b[k].v))
  {
    JoinAlignedLabels(a, b, base, op);
    forall k | 0 <= k < |a| ensures Join(a, b, op)[k] == Cell(base + k, a[k].x, Apply(op, a[k].v, b[k].v)) {
      JoinAlignedAt(a, b, base, op, k);
    }
  }

  /** The labels of the combination of alike-labelled operands. */
  lemma JoinAlignedLabels(a: Field, b: Field, base: int, op: Op)
    requires Consecutive(a, base) && Consecutive(b, base) && |a| == |b|
    ensures |Join(a, b, op)| == |a| && Consecutive(Join(a, b, op), base)
  {
    AlignConsecutive(a, base, b, base);
    forall k | 0 <= k < |a| ensures Join(a, b, op)[k].pos == base + k {
      JoinAt(a, b, op, k);
    }
  }

  /** One sample of the combination of alike-labelled operands. */
  lemma JoinAlignedAt(a: Field, b: Field, base: int, op: Op, k: int)
    requires Consecutive(a, base) && Consecutive(b, base) && |a| == |b| && 0 <= k < |a|
    ensures |Join(a, b, op)| == |a|
    ensures Join(a, b, op)[k] == Cell(base + k, a[k].x, Apply(op, a[k].v, b[k].v))
  {
    AlignConsecutive(a, base, b, base);
    JoinAt(a, b, op, k);
  }

  /** Every pair of the alignment takes its left value from `a` and its right
      value from `b`; so zeros on either side stay zeros. */
  lemma {:induction false} AlignKeepsZero(a: Field, b: Field)
    ensures AllZero(a) ==> forall k :: 0 <= k < |Align(a, b)| ==> Align(a, b)[k].left == 0.0
    ensures AllZero(b) ==> forall k :: 0 <= k < |Align(a, b)| ==> Align(a, b)[k].right == 0.0
  {
    if a != [] {
      AlignKeepsZero(a[1..], b);
      FindIsMember(b, a[0].pos);
    }
  }

  /** Zeros survive multiplication by anything, addition of zeros and
      division of zero by anything. */
  lemma JoinKeepsZero(a: Field, b: Field, op: Op)
    requires || (op == Times && (AllZero(a) || AllZero(b)))
             || (op == Plus && AllZero(a) && AllZero(b))
             || (op == Over && AllZero(a))
    ensures AllZero(Join(a, b, op))
  {
    AlignKeepsZero(a, b);
    forall k | 0 <= k < |Join(a, b, op)| ensures Join(a, b, op)[k].v == 0.0 {
      JoinAt(a, b, op, k);
    }
  }
}
