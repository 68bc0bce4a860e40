/**
 * Two defects of array_coercion.c, each shown on a concrete input: the code
 * as written (`Variant.AsWritten`) against the intended code (`Intended`),
 * for which the general properties are proved in `Discovery`.
 */
module DiscoveryFindings {
  import opened Wrappers
  import opened Coercion
  import opened ShapeUpdate
  import opened DiscoverySteps
  import opened Discovery

  /** Collaborators that behave as plainly as possible: every DType finds its
      canonical instance, only the string DType is parametric, promotion keeps
      the first descriptor, every DType is alive, and no `is_known_scalar`
      hook claims anything beyond the DType's own scalar type. */
  const PlainEnv: Env := Env(
    (d: DTypeId) => d == StringDType,
    (d: DTypeId) => true,
    (d: DTypeId) => DTypeAsType(d),
    (d: DTypeId, o: Node) => false,
    (d: DTypeId, o: Node) => Found(DescrFromType(d)),
    (d: DTypeId) => Slot(Some(DescrFromType(d))),
    (d: DTypeId) => DescrFromType(d),
    (a: Descr, b: Descr) => Some(a),
    (a: Descr, f: Descr) => Some(f),
    (t: PyType) => false,
    (d: DTypeId) => true,
    false)

  /** The type of NumPy's `np.int_` scalars. */
  const LongScalarType: PyType := OtherType(1)

  /** The primed registry with `np.int_` registered to its legacy DType. */
  const PlainRegistry: Registry :=
    Table(map[ListType := KnownNonScalar, TupleType := KnownNonScalar, NdarrayType := KnownNonScalar,
              LongScalarType := WeakDType(LongDType)])

  lemma PlainEnvWellFormed()
    ensures WellFormed(PlainEnv)
  {
  }

  function DoubleArray(shape: seq<nat>): Node {
    Array(NdarrayType, Arr(shape, DescrFromType(DoubleDType), []))
  }

  /** `[a, b]` for arrays `a` of shape (2, 3, 4) and `b` of shape (2, 3, 5). */
  const TwoArrays: Node := List([DoubleArray([2, 3, 4]), DoubleArray([2, 3, 5])])

  /** Merging (2, 3, 5) under a first array's (2, 3, 4) at depth 1: the
      mismatch in the third compared dimension trims the limit to 1 - 2 as
      written, to 1 + 2 as intended. */
  lemma TrimAtMismatch()
    ensures UpdateShape(1, 4, [2, 2, 3, 4], [2, 3, 5], false, AsWritten) == Update(false, -1, [2, 2, 3, 4])
    ensures UpdateShape(1, 4, [2, 2, 3, 4], [2, 3, 5], false, Intended) == Update(false, 3, [2, 2, 3, 4])
  {
    var shape: seq<int> := [2, 2, 3, 4];
    var newShape: seq<nat> := [2, 3, 5];
    assert FirstMismatch(shape, 1, newShape, 3, 2) == 2;
    assert FirstMismatch(shape, 1, newShape, 3, 1) == 2;
    assert FirstMismatch(shape, 1, newShape, 3, 0) == 2;
    assert Fill(shape, 1, newShape, 2) == shape;
  }

  /** Under the plain collaborators an ndarray is never claimed as a scalar,
      so the walk takes the array case. */
  lemma ArrayIsVisited(call: Call, n: Node, curr: nat, maxDims: int, st: State)
    requires call.env == PlainEnv && st.registry == PlainRegistry && n.Array? && n.pytype == NdarrayType
    requires curr <= |st.shape| && maxDims <= |st.shape|
    ensures Recursive(call, n, curr, maxDims, st) == ArrayBranch(call, n, n.arr, curr, maxDims, st)
  {
    assert !ClaimedByFixed(PlainEnv, n, call.fixed);
    assert DiscoverFromPyobject(PlainEnv, PlainRegistry, n, call.fixed) == Classified(Ok(None), PlainRegistry);
    assert st.(registry := PlainRegistry) == st;
  }

  /** An array of doubles whose shape fits: cached, shape merged, and its
      descriptor taken as the first one. */
  lemma DoubleArrayFits(call: Call, n: Node, curr: nat, maxDims: int, st: State, u: Update)
    requires call.env == PlainEnv && call.fixed.None? && call.requested.None?
    requires n.Array? && n.arr.descr == DescrFromType(DoubleDType) && st.descr.None?
    requires curr <= |st.shape| && maxDims <= |st.shape|
    requires u == UpdateShape(curr, maxDims, st.shape, n.arr.shape, false, call.variant) && u.ok
    ensures ArrayBranch(call, n, n.arr, curr, maxDims, st) ==
              Ok(Step(u.maxNdim, st.(shape := u.shape, cache := st.cache + [CacheEntry(n, ConvArr(n.arr), false)],
                                     descr := Some(DescrFromType(DoubleDType)))))
  {
  }

  /** An array whose shape does not fit: cached, flagged ragged, nothing else. */
  lemma ArrayMisfits(call: Call, n: Node, curr: nat, maxDims: int, st: State, u: Update)
    requires n.Array? && curr <= |st.shape| && maxDims <= |st.shape|
    requires u == UpdateShape(curr, maxDims, st.shape, n.arr.shape, false, call.variant) && !u.ok
    ensures ArrayBranch(call, n, n.arr, curr, maxDims, st) ==
              Ok(Step(u.maxNdim, st.(shape := u.shape, cache := st.cache + [CacheEntry(n, ConvArr(n.arr), false)],
                                     flags := st.flags.(ragged := true))))
  {
  }

  /** A non-empty list under the plain collaborators is a sequence: its
      length is merged as one dimension and its items are visited. */
  lemma ListIsEntered(call: Call, n: Node, curr: nat, depth: nat, maxDims: int, st: State, u: Update, st1: State)
    requires call.env == PlainEnv && st.registry == PlainRegistry && n.List? && n.items != []
    requires curr < maxDims <= |st.shape| && !st.flags.stringsAsSequences
    requires u == UpdateShape(curr, maxDims, st.shape, [|n.items|], true, call.variant) && u.ok
    requires st1 == st.(shape := u.shape, cache := st.cache + [CacheEntry(n, ConvSeq(n.items), true)])
    requires depth == curr + 1
    ensures Recursive(call, n, curr, maxDims, st) == Items(call, n.items, 0, depth, maxDims, st1)
  {
    assert !ClaimedByFixed(PlainEnv, n, call.fixed);
    assert DiscoverFromPyobject(PlainEnv, PlainRegistry, n, call.fixed) == Classified(Ok(None), PlainRegistry);
    assert st.(registry := PlainRegistry) == st;
    assert IsSequence(n, st.flags);
    assert Recursive(call, n, curr, maxDims, st) == Visit(call, n, curr, maxDims, st, None);
    assert Visit(call, n, curr, maxDims, st, None) == VisitOther(call, n, curr, maxDims, st);
    assert VisitOther(call, n, curr, maxDims, st) == SequenceBranch(call, n, n.items, curr, maxDims, st);
    var e := SeqEntered(call, n, n.items, curr, maxDims, st);
    assert e.0 == u;
    assert e.1 == st.(shape := u.shape, cache := st.cache + [CacheEntry(n, ConvSeq(n.items), true)]);
  }

  /** One turn of the item loop, for an item whose visit succeeded with a
      usable limit. */
  lemma ItemStep(call: Call, items: seq<Node>, i: nat, depth: nat, maxDims: int, st: State, s: Step)
    requires 1 <= depth <= |st.shape| && maxDims <= |st.shape| && i < |items|
    requires Recursive(call, items[i], depth, maxDims, st) == Ok(s) && s.maxDims >= 0
    ensures |s.st.shape| == |st.shape| && s.maxDims <= |st.shape|
    ensures Items(call, items, i, depth, maxDims, st) == Items(call, items, i + 1, depth, s.maxDims, s.st)
  {
  }

  /** The list's length fills the first of four unset extents. */
  lemma ListLengthFits(variant: Variant, shape: seq<int>, lengths: seq<nat>)
    requires shape == [-1, -1, -1, -1] && lengths == [2]
    ensures UpdateShape(0, 4, shape, lengths, true, variant) == Update(true, 4, [2, -1, -1, -1])
  {
    assert FirstMismatch(shape, 0, lengths, 1, 0) == 1;
    assert Fill(shape, 0, lengths, 1) == [2, -1, -1, -1];
  }

  /** The first array's shape fills the other three extents. */
  lemma FirstArrayFits(variant: Variant)
    ensures UpdateShape(1, 4, [2, -1, -1, -1], [2, 3, 4], false, variant) == Update(true, 4, [2, 2, 3, 4])
  {
    assert FirstMismatch([2, -1, -1, -1], 1, [2, 3, 4], 3, 0) == 3;
    assert Fill([2, -1, -1, -1], 1, [2, 3, 4], 3) == [2, 2, 3, 4];
  }

  /** Entering a pair at the top of a four-dimensional walk: the list fixes
      the first extent. */
  lemma PairEntered(call: Call, n: Node, st0: State, st1: State)
    requires call.env == PlainEnv && n.List? && |n.items| == 2
    requires st0 == State([-1, -1, -1, -1], None, [], NoFlags, PlainRegistry)
    requires st1 == State([2, -1, -1, -1], None, [CacheEntry(n, ConvSeq(n.items), true)], NoFlags, PlainRegistry)
    ensures Recursive(call, n, 0, 4, st0) == Items(call, n.items, 0, 1, 4, st1)
  {
    ListLengthFits(call.variant, st0.shape, [|n.items|]);
    assert st0.(shape := [2, -1, -1, -1], cache := st0.cache + [CacheEntry(n, ConvSeq(n.items), true)]) == st1;
    ListIsEntered(call, n, 0, 1, 4, st0, Update(true, 4, [2, -1, -1, -1]), st1);
  }

  /** The first array fixes the other three extents and the descriptor. */
  lemma FirstArrayVisited(call: Call, st1: State, st2: State)
    requires call.env == PlainEnv && call.fixed.None? && call.requested.None?
    requires st1 == State([2, -1, -1, -1], None, [CacheEntry(TwoArrays, ConvSeq(TwoArrays.items), true)],
                          NoFlags, PlainRegistry)
    requires st2 == State([2, 2, 3, 4], Some(DescrFromType(DoubleDType)),
                          st1.cache + [CacheEntry(TwoArrays.items[0], ConvArr(TwoArrays.items[0].arr), false)],
                          NoFlags, PlainRegistry)
    ensures Items(call, TwoArrays.items, 0, 1, 4, st1) == Items(call, TwoArrays.items, 1, 1, 4, st2)
  {
    var a := TwoArrays.items[0];
    FirstArrayFits(call.variant);
    ArrayIsVisited(call, a, 1, 4, st1);
    DoubleArrayFits(call, a, 1, 4, st1, Update(true, 4, [2, 2, 3, 4]));
    ItemStep(call, TwoArrays.items, 0, 1, 4, st1, Step(4, st2));
  }

  /** The walk of `TwoArrays` up to the second array, which both readings
      share. */
  lemma TwoArraysPrefix(call: Call, st0: State, st2: State)
    requires call.env == PlainEnv && call.fixed.None? && call.requested.None?
    requires st0 == State([-1, -1, -1, -1], None, [], NoFlags, PlainRegistry)
    requires st2 == State([2, 2, 3, 4], Some(DescrFromType(DoubleDType)),
                          [CacheEntry(TwoArrays, ConvSeq(TwoArrays.items), true),
                           CacheEntry(TwoArrays.items[0], ConvArr(TwoArrays.items[0].arr), false)],
                          NoFlags, PlainRegistry)
    ensures Recursive(call, TwoArrays, 0, 4, st0) == Items(call, TwoArrays.items, 1, 1, 4, st2)
  {
    var st1 := State([2, -1, -1, -1], None, [CacheEntry(TwoArrays, ConvSeq(TwoArrays.items), true)], NoFlags, PlainRegistry);
    PairEntered(call, TwoArrays, st0, st1);
    FirstArrayVisited(call, st1, st2);
  }

  /** The second array's shape disagrees with the extents the first one set. */
  lemma SecondArrayMisfits(call: Call, st2: State, u: Update)
    requires st2.shape == [2, 2, 3, 4] && u == UpdateShape(1, 4, st2.shape, TwoArrays.items[1].arr.shape, false, call.variant)
    ensures !u.ok && u.shape == st2.shape
    ensures u.maxNdim == (if call.variant == AsWritten then -1 else 3)
  {
    TrimAtMismatch();
  }

  /** The whole walk of `TwoArrays` as written: the second array leaves the
      limit at -1, and the item loop gives up without an exception. */
  lemma TwoArraysWalkAsWritten(call: Call, st0: State)
    requires call == Call(PlainEnv, None, None, AsWritten)
    requires st0 == State([-1, -1, -1, -1], None, [], NoFlags, PlainRegistry)
    ensures Recursive(call, TwoArrays, 0, 4, st0) == Err(NoExceptionSet)
  {
    var a := TwoArrays.items[0];
    var b := TwoArrays.items[1];
    var st2 := State([2, 2, 3, 4], Some(DescrFromType(DoubleDType)),
                     [CacheEntry(TwoArrays, ConvSeq(TwoArrays.items), true), CacheEntry(a, ConvArr(a.arr), false)],
                     NoFlags, PlainRegistry);
    TwoArraysPrefix(call, st0, st2);
    var u := UpdateShape(1, 4, st2.shape, b.arr.shape, false, call.variant);
    SecondArrayMisfits(call, st2, u);
    ArrayIsVisited(call, b, 1, 4, st2);
    ArrayMisfits(call, b, 1, 4, st2, u);
  }

  /** The whole walk of `TwoArrays` as intended: the second array lowers the
      limit to the three agreeing extents and marks the result ragged. */
  lemma TwoArraysWalkIntended(call: Call, st0: State)
    requires call == Call(PlainEnv, None, None, Intended)
    requires st0 == State([-1, -1, -1, -1], None, [], NoFlags, PlainRegistry)
    ensures var r := Recursive(call, TwoArrays, 0, 4, st0);
            r.Ok? && r.value.maxDims == 3 && r.value.st.flags.ragged && |r.value.st.shape| == 4
  {
    var a := TwoArrays.items[0];
    var b := TwoArrays.items[1];
    var st2 := State([2, 2, 3, 4], Some(DescrFromType(DoubleDType)),
                     [CacheEntry(TwoArrays, ConvSeq(TwoArrays.items), true), CacheEntry(a, ConvArr(a.arr), false)],
                     NoFlags, PlainRegistry);
    TwoArraysPrefix(call, st0, st2);
    var u := UpdateShape(1, 4, st2.shape, b.arr.shape, false, call.variant);
    SecondArrayMisfits(call, st2, u);
    ArrayIsVisited(call, b, 1, 4, st2);
    ArrayMisfits(call, b, 1, 4, st2, u);
    var st3 := st2.(shape := u.shape, cache := st2.cache + [CacheEntry(b, ConvArr(b.arr), false)],
                    flags := st2.flags.(ragged := true));
    ItemStep(call, TwoArrays.items, 1, 1, 4, st2, Step(3, st3));
    assert Items(call, TwoArrays.items, 2, 1, 3, st3) == Ok(Step(3, st3));
  }

  /** As written, `[a, b]` makes discovery fail without an exception set:
      the caller reports a SystemError instead of a ragged-array result. */
  lemma TwoArraysAsWritten()
    ensures DiscoverDTypeAndShape(PlainEnv, PlainRegistry, TwoArrays, 4, None, None, AsWritten).result == Err(NoExceptionSet)
  {
    var st0 := State(seq(4, _ => -1), None, [], InitialFlags(None), PlainRegistry);
    assert st0 == State([-1, -1, -1, -1], None, [], NoFlags, PlainRegistry);
    TwoArraysWalkAsWritten(Call(PlainEnv, None, None, AsWritten), st0);
  }

  /** As intended, the same input is a ragged three-dimensional discovery:
      the deprecation is warned and the descriptor is object. */
  lemma TwoArraysIntended()
    ensures var r := DiscoverDTypeAndShape(PlainEnv, PlainRegistry, TwoArrays, 4, None, None, Intended).result;
            r.Ok? && r.value.ndim == 3 && r.value.warned && r.value.descr == ObjectDescr
  {
    var st0 := State(seq(4, _ => -1), None, [], InitialFlags(None), PlainRegistry);
    assert st0 == State([-1, -1, -1, -1], None, [], NoFlags, PlainRegistry);
    TwoArraysWalkIntended(Call(PlainEnv, None, None, Intended), st0);
  }

  /** An `np.int_` scalar: its type is registered to the legacy long DType. */
  const NpLong: Node := Leaf(LongScalarType, GenericScalar(Some(LongDType)))

  /** A one-element object array holding an `np.int_` scalar. */
  const IntObjectArray: Node := Array(NdarrayType, Arr([1], ObjectDescr, [NpLong]))

  /** The DType whose instance the element step settles on: as written the scalar's own DType stands where the fixed one belongs. */
  function ElementOwner(variant: Variant): DTypeId {
    if variant == AsWritten then LongDType else StringDType
  }

  /** The element loop over `[NpLong]` with the string DType fixed. */
  lemma IntElementHandled(call: Call, elems: seq<Node>, st: State)
    requires call.env == PlainEnv && call.fixed == Some(StringDType) && call.requested.None?
    requires elems == [NpLong] && st.registry == PlainRegistry && st.descr.None?
    ensures ObjectElements(call, elems, 0, st) == Ok(st.(descr := Some(DescrFromType(ElementOwner(call.variant)))))
  {
    var c := DiscoverFromPyobject(PlainEnv, PlainRegistry, NpLong, call.fixed);
    assert !ClaimedByFixed(PlainEnv, NpLong, call.fixed);
    assert c == Classified(Ok(Some(LongDType)), PlainRegistry);
    var args := ElementDTypes(call, Some(LongDType));
    var flat := st.(shape := [], registry := PlainRegistry);
    var d := FindScalarDescriptor(PlainEnv, args.0, args.1, NpLong, None);
    assert d == Ok(DescrFromType(ElementOwner(call.variant)));
    var u := ElementShape(0, 0, [], call.variant);
    assert u.ok && u.maxNdim == 0;
    var h := HandleScalar(call, NpLong, 0, 0, flat, args.0, None, args.1);
    assert h == Ok(Step(0, flat.(descr := Some(DescrFromType(ElementOwner(call.variant))))));
    assert h.value.st.(shape := st.shape) == st.(descr := Some(DescrFromType(ElementOwner(call.variant))));
  }

  /** A single extent fills the one unset dimension. */
  lemma SingleExtentFits(variant: Variant)
    ensures UpdateShape(0, 1, [-1], [1], false, variant) == Update(true, 1, [1])
  {
    assert FirstMismatch([-1], 0, [1], 1, 0) == 1;
    assert Fill([-1], 0, [1], 1) == [1];
  }

  /** A one-element object array fills the single dimension, and its
      element decides the descriptor. */
  lemma IntObjectArrayWalk(call: Call, n: Node, st0: State)
    requires call.env == PlainEnv && call.fixed == Some(StringDType) && call.requested.None?
    requires n.Array? && n.pytype == NdarrayType && n.arr.shape == [1] && n.arr.descr == ObjectDescr
    requires n.arr.objElems == [NpLong]
    requires st0 == State([-1], None, [], NoFlags, PlainRegistry)
    ensures Recursive(call, n, 0, 1, st0) ==
              Ok(Step(1, State([1], Some(DescrFromType(ElementOwner(call.variant))),
                               [CacheEntry(n, ConvArr(n.arr), false)], NoFlags, PlainRegistry)))
  {
    ArrayIsVisited(call, n, 0, 1, st0);
    SingleExtentFits(call.variant);
    var st1 := st0.(shape := [1], cache := [CacheEntry(n, ConvArr(n.arr), false)]);
    var e := ArrayEntered(call, n, n.arr, 0, 1, st0);
    assert e.0 == UpdateShape(0, 1, [-1], [1], false, call.variant);
    assert e.0 == Update(true, 1, [1]);
    assert e.1 == st1;
    IntElementHandled(call, n.arr.objElems, st1);
    assert ArrayDescr(call, n.arr, st1) == Ok(st1.(descr := Some(DescrFromType(ElementOwner(call.variant)))));
  }

  /** As written, an object array holding an `np.int_`, discovered with the string
      DType fixed, comes out as a long array: the fixed DType is ignored
      although no promotion failed and nothing is ragged. */
  lemma IntObjectArrayAsWritten()
    ensures var r := DiscoverDTypeAndShape(PlainEnv, PlainRegistry, IntObjectArray, 1, Some(StringDType), None, AsWritten).result;
            && r.Ok? && r.value.ndim == 1 && !r.value.flags.promotionFailed && !r.value.flags.ragged
            && r.value.descr == DescrFromType(LongDType)
  {
    var st0 := State(seq(1, _ => -1), None, [], InitialFlags(None), PlainRegistry);
    assert st0 == State([-1], None, [], NoFlags, PlainRegistry);
    IntObjectArrayWalk(Call(PlainEnv, Some(StringDType), None, AsWritten), IntObjectArray, st0);
  }

  /** As intended, the element is asked of the fixed string DType, and the
      result is a string array. */
  lemma IntObjectArrayIntended()
    ensures var r := DiscoverDTypeAndShape(PlainEnv, PlainRegistry, IntObjectArray, 1, Some(StringDType), None, Intended).result;
            r.Ok? && r.value.ndim == 1 && r.value.descr == DescrFromType(StringDType)
  {
    var st0 := State(seq(1, _ => -1), None, [], InitialFlags(None), PlainRegistry);
    assert st0 == State([-1], None, [], NoFlags, PlainRegistry);
    IntObjectArrayWalk(Call(PlainEnv, Some(StringDType), None, Intended), IntObjectArray, st0);
  }
}
