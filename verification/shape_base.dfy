/**
 * The stacking helpers of `numpy/core/shape_base.py`, at the level of
 * shapes: `atleast_1d/2d/3d`, `vstack`, `hstack`, `stack` and `block`.
 * `concatenate` itself is not modelled: the helpers are described by the
 * call they make to it (`Concatenation`).
 */
module ShapeBase {
  import opened Wrappers
  import opened DescrMath

  type Shape = seq<nat>

  /** The inputs were one array, so is the result; otherwise a list. */
  datatype Returned = One(shape: Shape) | ListOf(shapes: seq<Shape>)

  function Returning(res: seq<Shape>): (r: Returned)
    ensures |res| == 1 <==> r.One?
    ensures r.One? ==> r.shape == res[0]
    ensures r.ListOf? ==> r.shapes == res
  {
    if |res| == 1 then One(res[0]) else ListOf(res)
  }

  /** The view `atleast_1d` takes of one array. */
  function AtLeast1d(s: Shape): (r: Shape)
    ensures |r| >= 1 && |r| == if |s| == 0 then 1 else |s|
    // a reshape: the elements are the same
    ensures Product(r) == Product(s)
    // an array that already has a dimension is returned as it is
    ensures |s| >= 1 ==> r == s
  {
    if |s| == 0 then [1] else s
  }

  /** The view `atleast_2d` takes of one array: missing dimensions go in
      front. */
  function AtLeast2d(s: Shape): (r: Shape)
    ensures |r| >= 2 && |r| == if |s| < 2 then 2 else |s|
    ensures Product(r) == Product(s)
    // the original extents are the trailing ones
    ensures r[|r| - |s|..] == s && forall i :: 0 <= i < |r| - |s| ==> r[i] == 1
  {
    if |s| == 0 then [1, 1]
    else if |s| == 1 then
      ProductAppend([1], s);
      assert [1, s[0]] == [1] + s;
      [1, s[0]]
    else s
  }

  /** The view `atleast_3d` takes of one array: a vector becomes (1, N, 1),
      a matrix (M, N, 1). */
  function AtLeast3d(s: Shape): (r: Shape)
    ensures |r| >= 3 && |r| == if |s| < 3 then 3 else |s|
    ensures Product(r) == Product(s)
    ensures |s| >= 3 ==> r == s
    // the original extents sit in order, padded by ones on both sides
    ensures |s| == 1 ==> r[1..2] == s && r[0] == 1 && r[2] == 1
    ensures |s| == 2 ==> r[..2] == s && r[2] == 1
    ensures |s| == 0 ==> r == [1, 1, 1]
  {
    if |s| == 0 then [1, 1, 1]
    else if |s| == 1 then
      ProductAppend([1] + s, [1]);
      ProductAppend([1], s);
      assert [1, s[0], 1] == [1] + s + [1];
      [1, s[0], 1]
    else if |s| == 2 then
      ProductAppend(s, [1]);
      assert [s[0], s[1], 1] == s + [1];
      [s[0], s[1], 1]
    else
      s
  }

  /** Each `atleast_Nd` is idempotent, and the higher ones see through the
      lower ones. */
  lemma AtLeastIdempotent(s: Shape)
    ensures AtLeast1d(AtLeast1d(s)) == AtLeast1d(s)
    ensures AtLeast2d(AtLeast2d(s)) == AtLeast2d(s)
    ensures AtLeast3d(AtLeast3d(s)) == AtLeast3d(s)
    ensures AtLeast2d(AtLeast1d(s)) == AtLeast2d(s)
  {
  }

  function Map1d(arys: seq<Shape>): (r: seq<Shape>)
    ensures |r| == |arys| && forall i :: 0 <= i < |arys| ==> r[i] == AtLeast1d(arys[i])
  {
    if arys == [] then [] else [AtLeast1d(arys[0])] + Map1d(arys[1..])
  }

  function Map2d(arys: seq<Shape>): (r: seq<Shape>)
    ensures |r| == |arys| && forall i :: 0 <= i < |arys| ==> r[i] == AtLeast2d(arys[i])
  {
    if arys == [] then [] else [AtLeast2d(arys[0])] + Map2d(arys[1..])
  }

  function Map3d(arys: seq<Shape>): (r: seq<Shape>)
    ensures |r| == |arys| && forall i :: 0 <= i < |arys| ==> r[i] == AtLeast3d(arys[i])
  {
    if arys == [] then [] else [AtLeast3d(arys[0])] + Map3d(arys[1..])
  }

  /** `atleast_1d(*arys)` and its siblings. */
  function AtLeast1dAll(arys: seq<Shape>): (r: Returned)
    ensures |arys| == 1 ==> r == One(AtLeast1d(arys[0]))
    ensures |arys| != 1 ==> r.ListOf? && |r.shapes| == |arys|
    ensures r.ListOf? ==> forall i :: 0 <= i < |arys| ==> |r.shapes[i]| >= 1 && Product(r.shapes[i]) == Product(arys[i])
  {
    Returning(Map1d(arys))
  }

  function AtLeast2dAll(arys: seq<Shape>): (r: Returned)
    ensures |arys| == 1 ==> r == One(AtLeast2d(arys[0]))
    ensures |arys| != 1 ==> r.ListOf? && |r.shapes| == |arys|
    ensures r.ListOf? ==> forall i :: 0 <= i < |arys| ==> |r.shapes[i]| >= 2 && Product(r.shapes[i]) == Product(arys[i])
  {
    Returning(Map2d(arys))
  }

  function AtLeast3dAll(arys: seq<Shape>): (r: Returned)
    ensures |arys| == 1 ==> r == One(AtLeast3d(arys[0]))
    ensures |arys| != 1 ==> r.ListOf? && |r.shapes| == |arys|
    ensures r.ListOf? ==> forall i :: 0 <= i < |arys| ==> |r.shapes[i]| >= 3 && Product(r.shapes[i]) == Product(arys[i])
  {
    Returning(Map3d(arys))
  }

  /** The call a helper makes to `concatenate`. */
  datatype Concatenation = Concatenation(parts: seq<Shape>, axis: int)

  /** `vstack`: rows are made two-dimensional and joined on axis 0. */
  function VStack(tup: seq<Shape>): (r: Concatenation)
    ensures r.axis == 0 && |r.parts| == |tup|
    ensures forall i :: 0 <= i < |tup| ==> |r.parts[i]| >= 2 && Product(r.parts[i]) == Product(tup[i])
  {
    Concatenation(Map2d(tup), 0)
  }

  /** `hstack`: one-dimensional inputs are joined along their only axis,
      anything else along the second. */
  function HStack(tup: seq<Shape>): (r: Concatenation)
    ensures |r.parts| == |tup| && forall i :: 0 <= i < |tup| ==> r.parts[i] == AtLeast1d(tup[i])
    ensures r.axis == 0 <==> tup != [] && |tup[0]| <= 1
    ensures r.axis == 1 <==> !(tup != [] && |tup[0]| <= 1)
  {
    var arrs := Map1d(tup);
    if arrs != [] && |arrs[0]| == 1 then Concatenation(arrs, 0) else Concatenation(arrs, 1)
  }

  datatype StackError =
    | NeedOneArray        // ValueError: need at least one array to stack
    | ShapesDiffer        // ValueError: all input arrays must have the same shape
    | AxisOutOfBounds     // AxisError from normalize_axis_index

  /** `normalize_axis_index`: a negative axis counts from the end. */
  function NormalizeAxisIndex(axis: int, ndim: nat): (r: Result<nat, StackError>)
    ensures r.Ok? <==> -(ndim as int) <= axis < ndim
    ensures r.Ok? ==> r.value < ndim && (r.value == axis || r.value == axis + ndim)
    ensures r.Err? ==> r.error == AxisOutOfBounds
  {
    if axis < -(ndim as int) || axis >= ndim then Err(AxisOutOfBounds)
    else if axis < 0 then Ok(axis + ndim)
    else Ok(axis)
  }

  /** The shape with a new axis of length `n` inserted at position `axis`. */
  function InsertAxis(s: Shape, axis: nat, n: nat): (r: Shape)
    requires axis <= |s|
    ensures |r| == |s| + 1 && r[axis] == n
    ensures forall i :: 0 <= i < axis ==> r[i] == s[i]
    ensures forall i :: axis < i < |r| ==> r[i] == s[i - 1]
  {
    s[..axis] + [n] + s[axis..]
  }

  predicate AllEqual(shapes: seq<Shape>) {
    forall i :: 0 <= i < |shapes| ==> shapes[i] == shapes[0]
  }

  /** `stack`: every array gets a new axis of length one at `axis`, and the
      results are joined along it. */
  function Stack(arrays: seq<Shape>, axis: int): (r: Result<Concatenation, StackError>)
    ensures arrays == [] <==> r == Err(NeedOneArray)
    ensures r == Err(ShapesDiffer) <==> arrays != [] && !AllEqual(arrays)
    ensures r == Err(AxisOutOfBounds) <==>
              arrays != [] && AllEqual(arrays) && !(-(|arrays[0]| + 1) <= axis <= |arrays[0]|)
    ensures r.Ok? ==>
              var ax := r.value.axis;
              && 0 <= ax <= |arrays[0]| && (ax == axis || ax == axis + |arrays[0]| + 1)
              && |r.value.parts| == |arrays|
              && forall i :: 0 <= i < |arrays| ==> r.value.parts[i] == InsertAxis(arrays[0], ax, 1)
  {
    if arrays == [] then Err(NeedOneArray)
    else if exists i :: 0 <= i < |arrays| && arrays[i] != arrays[0] then Err(ShapesDiffer)
    else
      var ax :- NormalizeAxisIndex(axis, |arrays[0]| + 1);
      Ok(Concatenation(seq(|arrays|, i requires 0 <= i < |arrays| => InsertAxis(arrays[i], ax, 1)), ax))
  }

  /** The joined shape when `parts` agree off the axis: the extents along
      the axis add up. Used to state what `stack` produces. */
  function Joined(parts: seq<Shape>, axis: nat): (r: Shape)
    requires parts != [] && forall i :: 0 <= i < |parts| ==> |parts[i]| == |parts[0]| && axis < |parts[0]|
    ensures |r| == |parts[0]|
  {
    parts[0][axis := SumAxis(parts, axis)]
  }

  function SumAxis(parts: seq<Shape>, axis: nat): nat
    requires forall i :: 0 <= i < |parts| ==> axis < |parts[i]|
  {
    if parts == [] then 0 else parts[0][axis] + SumAxis(parts[1..], axis)
  }

  lemma {:induction false} SumOfOnes(parts: seq<Shape>, axis: nat)
    requires forall i :: 0 <= i < |parts| ==> axis < |parts[i]| && parts[i][axis] == 1
    ensures SumAxis(parts, axis) == |parts|
  {
    if parts != [] {
      SumOfOnes(parts[1..], axis);
    }
  }

  /** Stacking `n` arrays of shape `s` yields shape `s` with `n` inserted at
      the normalised axis. */
  lemma StackShape(arrays: seq<Shape>, axis: int)
    requires Stack(arrays, axis).Ok?
    ensures var c := Stack(arrays, axis).value;
            Joined(c.parts, c.axis) == InsertAxis(arrays[0], c.axis, |arrays|)
  {
    var c := Stack(arrays, axis).value;
    SumOfOnes(c.parts, c.axis);
  }

  /** The nested lists handed to `block`. */
  datatype Block = Elem(shape: Shape) | Nest(items: seq<Block>)

  /** `max_or_0`. */
  function MaxOr0(xs: seq<nat>): (m: nat)
    ensures forall i :: 0 <= i < |xs| ==> xs[i] <= m
    ensures xs == [] ==> m == 0
    ensures xs != [] ==> exists i :: 0 <= i < |xs| && xs[i] == m
  {
    if xs == [] then 0
    else
      var rest := MaxOr0(xs[1..]);
      if xs[0] >= rest then xs[0] else rest
  }

  /** `list_ndim`: the nesting depth; an empty list counts one. */
  function ListNdim(b: Block): nat {
    match b
    case Elem(_) => 0
    case Nest(items) => MaxOr0(seq(|items|, i requires 0 <= i < |items| => ListNdim(items[i]))) + 1
  }

  /** `elem_ndim`: the largest element ndim, 0 without elements. */
  function ElemNdim(b: Block): nat {
    match b
    case Elem(s) => |s|
    case Nest(items) => MaxOr0(seq(|items|, i requires 0 <= i < |items| => ElemNdim(items[i])))
  }

  /** Every element of `b` has at most (`exact`: exactly) `n` dimensions. */
  predicate ElemsWithin(b: Block, n: nat, exact: bool) {
    match b
    case Elem(s) => if exact then |s| == n else |s| <= n
    case Nest(items) => forall i :: 0 <= i < |items| ==> ElemsWithin(items[i], n, exact)
  }

  /** `elem_ndim` bounds every element. */
  lemma {:induction false} ElemNdimBounds(b: Block)
    ensures ElemsWithin(b, ElemNdim(b), false)
  {
    match b
    case Elem(_) =>
    case Nest(items) =>
      var ns := seq(|items|, i requires 0 <= i < |items| => ElemNdim(items[i]));
      forall i | 0 <= i < |items| ensures ElemsWithin(items[i], ElemNdim(b), false) {
        ElemNdimBounds(items[i]);
        assert ns[i] <= ElemNdim(b);
        Widen(items[i], ElemNdim(items[i]), ElemNdim(b));
      }
  }

  lemma {:induction false} Widen(b: Block, n: nat, m: nat)
    requires ElemsWithin(b, n, false) && n <= m
    ensures ElemsWithin(b, m, false)
  {
    match b
    case Elem(_) =>
    case Nest(items) =>
      forall i | 0 <= i < |items| ensures ElemsWithin(items[i], m, false) {
        Widen(items[i], n, m);
      }
  }

  /** `exactly_nd`: the shape padded with leading ones to `ndim` entries. */
  function ExactlyNd(s: Shape, ndim: nat): (r: Shape)
    requires |s| <= ndim
    ensures |r| == ndim && r[ndim - |s|..] == s
    ensures forall i :: 0 <= i < ndim - |s| ==> r[i] == 1
    // a reshape, so the elements are the same
    ensures Product(r) == Product(s)
  {
    var ones := seq(ndim - |s|, _ => 1);
    ProductAppend(ones, s);
    ProductOfOnes(ones);
    ones + s
  }

  /** The elements of `block`'s input after `exactly_nd` was applied to
      each; the nesting is unchanged. */
  function Normalize(b: Block, ndim: nat): (r: Block)
    requires ElemsWithin(b, ndim, false)
    ensures ElemsWithin(r, ndim, true)
    ensures ListNdim(r) == ListNdim(b)
    ensures r.Elem? <==> b.Elem?
    ensures r.Elem? ==> Product(r.shape) == Product(b.shape)
    ensures r.Nest? ==> |r.items| == |b.items|
  {
    match b
    case Elem(s) => Elem(ExactlyNd(s, ndim))
    case Nest(items) =>
      var r := Nest(seq(|items|, i requires 0 <= i < |items| => Normalize(items[i], ndim)));
      assert seq(|items|, i requires 0 <= i < |items| => ListNdim(r.items[i]))
          == seq(|items|, i requires 0 <= i < |items| => ListNdim(items[i]));
      r
  }

  /** The tree of `concatenate` calls `_concatenate_recursive` makes. */
  datatype Plan = Part(shape: Shape) | Join(parts: seq<Plan>, axis: int)

  function ConcatPlan(b: Block, axis: int): Plan {
    match b
    case Elem(s) => Part(s)
    case Nest(items) => Join(seq(|items|, i requires 0 <= i < |items| => ConcatPlan(items[i], axis + 1)), axis)
  }

  /** Every `concatenate` in the plan gets an axis in range for arrays of
      `ndim` dimensions, and every part has exactly `ndim` dimensions. */
  predicate PlanValid(p: Plan, ndim: nat) {
    match p
    case Part(s) => |s| == ndim
    case Join(parts, axis) => -(ndim as int) <= axis < 0 && forall i :: 0 <= i < |parts| ==> PlanValid(parts[i], ndim)
  }

  /** A nested list at depth `d` below the root is joined on axis
      `d - list_ndim`, which stays negative because depth and nesting below
      add up to at most `list_ndim`. */
  lemma {:induction false} PlanAxes(b: Block, axis: int, ndim: nat)
    requires ElemsWithin(b, ndim, true) && -(ndim as int) <= axis && axis + ListNdim(b) <= 0
    ensures PlanValid(ConcatPlan(b, axis), ndim)
  {
    match b
    case Elem(_) =>
    case Nest(items) =>
      var ns := seq(|items|, i requires 0 <= i < |items| => ListNdim(items[i]));
      forall i | 0 <= i < |items| ensures PlanValid(ConcatPlan(items[i], axis + 1), ndim) {
        assert ns[i] <= ListNdim(b) - 1;
        PlanAxes(items[i], axis + 1, ndim);
      }
  }

  /** `block` at the level of shapes: the common ndim and the plan of
      `concatenate` calls. */
  datatype Blocked = Blocked(ndim: nat, plan: Plan)

  function BlockShapes(arrays: Block): (r: Blocked)
    ensures r.ndim >= ListNdim(arrays) && r.ndim >= ElemNdim(arrays)
    ensures r.ndim == ListNdim(arrays) || r.ndim == ElemNdim(arrays)
    // every element is brought to the same ndim, and every join is on an
    // axis that exists
    ensures PlanValid(r.plan, r.ndim)
  {
    var listNdim := ListNdim(arrays);
    var elemNdim := ElemNdim(arrays);
    var ndim := if listNdim >= elemNdim then listNdim else elemNdim;
    ElemNdimBounds(arrays);
    Widen(arrays, elemNdim, ndim);
    var normalized := Normalize(arrays, ndim);
    PlanAxes(normalized, -(listNdim as int), ndim);
    Blocked(ndim, ConcatPlan(normalized, -(listNdim as int)))
  }
}
