/**
 * The recursive walk of array-construction discovery and its entry points
 * (array_coercion.c): `PyArray_DiscoverDTypeAndShape_Recursive`,
 * `PyArray_DiscoverDTypeAndShape`, `PyArray_ExtractDTypeAndDescriptor` and
 * `_discover_array_parameters`.
 */
module Discovery {
  import opened Wrappers
  import opened Coercion
  import opened ShapeUpdate
  import opened DiscoverySteps
  import TypeRegistry

  /** The object is treated as a sequence: it passes the sequence check with
      a usable length, and it is not a tuple while tuples are elements. */
  predicate IsSequence(obj: Node, flags: Flags) {
    && (obj.List? || obj.Tuple? || obj.Str? || (obj.BadSequence? && obj.failure != SizeFails))
    && !(flags.tuplesAsElements && obj.Tuple?)
  }

  /** Objects the walk may descend into or cache; anything else is an element. */
  predicate Expandable(obj: Node, flags: Flags) {
    obj.Array? || obj.ArrayLike? || IsSequence(obj, flags)
  }

  /** What every part of the walk promises about its result `r`, started at
      depth `curr` with limit `maxDims` in state `st`; `setAbove` says that the
      extents the result's limit relies on were known on entry. */
  ghost predicate Walked(call: Call, st: State, curr: nat, maxDims: int, setAbove: bool, r: Result<Step, Error>) {
    && (r.Ok? ==> r.value.maxDims <= maxDims && Extends(st, r.value.st, curr))
    && (r.Ok? && setAbove ==> SetBelow(r.value.st.shape, r.value.maxDims))
    // the intended trimming never produces a bare -1
    && (call.variant == Intended && maxDims >= 0 ==>
          r != Err(NoExceptionSet) && (r.Ok? ==> r.value.maxDims >= 0))
    && (r.Ok? && FixedOwnsDescrs(call) && DescrInFixed(st, call.fixed.value) ==>
          DescrInFixed(r.value.st, call.fixed.value))
  }

  /** A walk from a state whose registry was pruned first is a walk from the
      state before the pruning. */
  lemma WalkedAfterPruning(call: Call, st: State, reg: Registry, curr: nat, maxDims: int, r: Result<Step, Error>)
    requires TypeRegistry.Shrinks(reg, st.registry)
    requires Walked(call, st.(registry := reg), curr, maxDims, SetBelow(st.shape, curr), r)
    ensures Walked(call, st, curr, maxDims, SetBelow(st.shape, curr), r)
  {
    if r.Ok? {
      assert Extends(st, st.(registry := reg), curr);
      ExtendsTransitive(st, st.(registry := reg), r.value.st, curr, curr);
    }
  }

  /** The element case of the walk; `reached` marks a sequence that is only an
      element because the dimension limit was reached. */
  function ScalarBranch(call: Call, obj: Node, curr: nat, maxDims: int, st: State,
                        dtype: Option<DTypeId>, reached: bool): (r: Result<Step, Error>)
    requires curr <= |st.shape| && maxDims <= |st.shape|
    ensures Walked(call, st, curr, maxDims, SetBelow(st.shape, curr), r)
    ensures r.Ok? ==> r.value.st.cache == st.cache
    ensures r.Ok? && reached ==> r.value.st.flags.reachedMaxDims
  {
    var s :- HandleScalar(call, obj, curr, maxDims, st, call.fixed, call.requested, dtype);
    if reached then Ok(Step(s.maxDims, s.st.(flags := s.st.flags.(reachedMaxDims := true)))) else Ok(s)
  }

  /** `PyArray_DiscoverDTypeAndShape_Recursive`: visit `obj` at depth `curr`. */
  function Recursive(call: Call, obj: Node, curr: nat, maxDims: int, st: State): (r: Result<Step, Error>)
    requires curr <= |st.shape| && maxDims <= |st.shape|
    ensures Walked(call, st, curr, maxDims, SetBelow(st.shape, curr), r)
    // the cache is filled in pre-order: an object precedes what it contains
    ensures r.Ok? && |r.value.st.cache| > |st.cache| ==> r.value.st.cache[|st.cache|].obj == obj
    // elements are never cached
    ensures r.Ok? && !Expandable(obj, st.flags) ==> r.value.st.cache == st.cache
    decreases |st.shape| - curr, 3
  {
    if st.flags.stringsAsSequences && obj.Str? && obj.len != 1 then
      SequenceBranch(call, obj, StrItems(obj.isBytes, obj.len), curr, maxDims, st)
    else
      var c := DiscoverFromPyobject(call.env, st.registry, obj, call.fixed);
      if c.result.Err? then Err(c.result.error)
      else
        var r := Visit(call, obj, curr, maxDims, st.(registry := c.registry), c.result.value);
        WalkedAfterPruning(call, st, c.registry, curr, maxDims, r);
        r
  }

  /** The walk once the object has been classified: a DType makes it an
      element; otherwise it is an array, an array-like, or maybe a sequence. */
  function Visit(call: Call, obj: Node, curr: nat, maxDims: int, st: State, dtype: Option<DTypeId>): (r: Result<Step, Error>)
    requires curr <= |st.shape| && maxDims <= |st.shape|
    ensures Walked(call, st, curr, maxDims, SetBelow(st.shape, curr), r)
    ensures r.Ok? && |r.value.st.cache| > |st.cache| ==> r.value.st.cache[|st.cache|].obj == obj
    ensures r.Ok? && !Expandable(obj, st.flags) ==> r.value.st.cache == st.cache
    decreases |st.shape| - curr, 2, 1
  {
    if dtype.Some? then ScalarBranch(call, obj, curr, maxDims, st, dtype, false)
    else if obj.Array? then ArrayBranch(call, obj, obj.arr, curr, maxDims, st)
    else if obj.ArrayLike? then
      if obj.conv.None? then Err(ExternalError)
      else ArrayBranch(call, obj, obj.conv.value, curr, maxDims, st)
    else VisitOther(call, obj, curr, maxDims, st)
  }

  /** Neither a scalar nor an array: a sequence is descended into, unless the
      dimension limit is reached; anything else is an element after all. */
  function VisitOther(call: Call, obj: Node, curr: nat, maxDims: int, st: State): (r: Result<Step, Error>)
    requires curr <= |st.shape| && maxDims <= |st.shape|
    ensures Walked(call, st, curr, maxDims, SetBelow(st.shape, curr), r)
    ensures r.Ok? && |r.value.st.cache| > |st.cache| ==> r.value.st.cache[|st.cache|].obj == obj
    ensures r.Ok? && !IsSequence(obj, st.flags) ==> r.value.st.cache == st.cache
    // a sequence met at the dimension limit is an element, and is flagged
    ensures r.Ok? && curr == maxDims && IsSequence(obj, st.flags) ==>
              r.value.st.cache == st.cache && r.value.st.flags.reachedMaxDims
    decreases |st.shape| - curr, 2, 0
  {
    if curr == maxDims || !IsSequence(obj, st.flags) then
      ScalarBranch(call, obj, curr, maxDims, st, None, IsSequence(obj, st.flags))
    else match obj
      case List(items) => SequenceBranch(call, obj, items, curr, maxDims, st)
      case Tuple(items) => SequenceBranch(call, obj, items, curr, maxDims, st)
      case Str(isBytes, len, _, _) => SequenceBranch(call, obj, StrItems(isBytes, len), curr, maxDims, st)
      case BadSequence(_, failure) =>
        if failure == IterKeyError then ScalarBranch(call, obj, curr, maxDims, st, None, false)
        else Err(ExternalError)
  }

  /** The state after a sequence at depth `curr` has been cached and its
      length merged into the shape, flagged ragged if the length did not fit. */
  function SeqEntered(call: Call, obj: Node, items: seq<Node>, curr: nat, maxDims: int, st: State): (r: (Update, State))
    requires maxDims <= |st.shape|
    ensures r.0 == UpdateShape(curr, maxDims, st.shape, [|items|], true, call.variant)
    ensures r.1.shape == r.0.shape && r.1.cache == st.cache + [CacheEntry(obj, ConvSeq(items), true)]
    ensures r.1.descr == st.descr && r.1.registry == st.registry
    ensures r.1.flags == (if r.0.ok then st.flags else st.flags.(ragged := true))
    ensures Extends(st, r.1, curr) && r.0.maxNdim <= maxDims
    ensures r.0.ok ==> curr + 1 <= maxDims && r.0.maxNdim == maxDims && r.1.shape[curr] == |items|
    ensures SetBelow(st.shape, curr) && r.0.ok ==> SetBelow(r.1.shape, curr + 1)
    ensures SetBelow(st.shape, curr) && !r.0.ok ==> SetBelow(r.1.shape, r.0.maxNdim)
    ensures call.variant == Intended && maxDims >= 0 ==> r.0.maxNdim >= 0
  {
    var u := UpdateShape(curr, maxDims, st.shape, [|items|], true, call.variant);
    UpdateShapeSucceeds(curr, maxDims, st.shape, [|items|], true, call.variant);
    UpdateShapeKnownBelow(curr, maxDims, st.shape, [|items|], true, call.variant);
    var flags := if u.ok then st.flags else st.flags.(ragged := true);
    (u, st.(shape := u.shape, cache := st.cache + [CacheEntry(obj, ConvSeq(items), true)], flags := flags))
  }

  /** The sequence case: cache the items, merge the length as one dimension,
      and visit the items one level deeper. */
  function SequenceBranch(call: Call, obj: Node, items: seq<Node>, curr: nat, maxDims: int, st: State): (r: Result<Step, Error>)
    requires curr <= |st.shape| && maxDims <= |st.shape|
    ensures Walked(call, st, curr, maxDims, SetBelow(st.shape, curr), r)
    ensures r.Ok? ==> |r.value.st.cache| > |st.cache| && r.value.st.cache[|st.cache|] == CacheEntry(obj, ConvSeq(items), true)
    // an empty sequence adds exactly one dimension
    ensures r.Ok? && items == [] && curr < maxDims && Compatible(st.shape[curr], 0) ==>
              r.value.maxDims == curr + 1 && r.value.st.shape[curr] == 0
    decreases |st.shape| - curr, 1
  {
    var (u, st1) := SeqEntered(call, obj, items, curr, maxDims, st);
    if !u.ok then Ok(Step(u.maxNdim, st1))
    else if |items| == 0 then Ok(Step(curr + 1, st1))
    else
      var r := Items(call, items, 0, curr + 1, maxDims, st1);
      WalkedDeeper(call, st, st1, curr, maxDims, SetBelow(st1.shape, curr + 1), r);
      r
  }

  /** A walk one level deeper, from a state that extends this level's, is a
      walk of this level. */
  lemma WalkedDeeper(call: Call, st: State, st1: State, curr: nat, maxDims: int, setAbove: bool, r: Result<Step, Error>)
    requires Extends(st, st1, curr) && st1.descr == st.descr && st1.flags == st.flags
    requires SetBelow(st.shape, curr) ==> setAbove
    requires Walked(call, st1, curr + 1, maxDims, setAbove, r)
    ensures Walked(call, st, curr, maxDims, SetBelow(st.shape, curr), r)
    ensures r.Ok? ==> st1.cache <= r.value.st.cache
  {
    if r.Ok? {
      ExtendsTransitive(st, st1, r.value.st, curr, curr + 1);
    }
  }

  /** The loop over a sequence's items at depth `depth`, from item `i` on,
      each visit receiving the limit the previous one left. */
  function Items(call: Call, items: seq<Node>, i: nat, depth: nat, maxDims: int, st: State): (r: Result<Step, Error>)
    requires 1 <= depth <= |st.shape| && maxDims <= |st.shape| && i <= |items|
    ensures Walked(call, st, depth, maxDims, SetBelow(st.shape, depth) && (i < |items| || SetBelow(st.shape, maxDims)), r)
    decreases |st.shape| - depth + 1, 0, |items| - i
  {
    if i == |items| then Ok(Step(maxDims, st))
    else
      var s :- Recursive(call, items[i], depth, maxDims, st);
      if s.maxDims < 0 then Err(NoExceptionSet)
      else
        var r := Items(call, items, i + 1, depth, s.maxDims, s.st);
        if r.Ok? then ExtendsTransitive(st, s.st, r.value.st, depth, depth); r
        else r
  }

  /** NPY_MAXDIMS: the size of the output-shape buffer. */
  const MaxDims: nat := 32

  /** The discovery modes a requested descriptor switches on: the character
      string dtype splits strings into characters, a structured or sub-array
      void dtype keeps tuples whole. */
  function InitialFlags(requested: Option<Descr>): (f: Flags)
    ensures !f.ragged && !f.reachedMaxDims && !f.promotionFailed
    ensures f.stringsAsSequences <==> requested.Some? && requested.value.dtype == StringDType && requested.value.charCode
    ensures f.tuplesAsElements <==>
              requested.Some? && requested.value.dtype == VoidDType && requested.value.structured && !f.stringsAsSequences
  {
    if requested.Some? && requested.value.dtype == StringDType && requested.value.charCode then
      NoFlags.(stringsAsSequences := true)
    else if requested.Some? && requested.value.dtype == VoidDType && requested.value.structured then
      NoFlags.(tuplesAsElements := true)
    else NoFlags
  }

  /** The result of a discovery: dimensions, the shape buffer (extents beyond
      `ndim` may have been written too), the descriptor, the coercion cache,
      the final flags and whether the ragged-input deprecation was warned. */
  datatype Discovered = Discovered(ndim: nat, shape: seq<int>, descr: Descr, cache: seq<CacheEntry>,
                                   flags: Flags, warned: bool)

  /** A discovery's outcome and the registry it leaves.  On failure the
      cache is released, which is why an error carries none. */
  datatype Outcome = Outcome(result: Result<Discovered, Error>, registry: Registry)

  /** The input is ragged, or nested deeper than it could be represented. */
  predicate RaggedResult(flags: Flags, ndim: int, maxDims: int) {
    flags.ragged || (flags.reachedMaxDims && ndim < maxDims)
  }

  /** The descriptor used when the walk found no element. */
  function EmptyDescr(env: Env, fixed: Option<DTypeId>): (r: Result<Descr, Error>)
    ensures fixed.None? ==> r == Ok(DescrFromType(DoubleDType))
    ensures fixed.Some? && env.defaultSlot(fixed.value).NoSlot? ==> r == Ok(env.singleton(fixed.value))
    ensures WellFormed(env) && fixed.Some? && r.Ok? ==> r.value.dtype == fixed.value
  {
    if fixed.None? then Ok(DescrFromType(DoubleDType))
    else if env.defaultSlot(fixed.value).NoSlot? then Ok(env.singleton(fixed.value))
    else DefaultDescr(env, fixed.value)
  }

  /** `PyArray_DiscoverDTypeAndShape`. */
  function DiscoverDTypeAndShape(env: Env, reg: Registry, obj: Node, maxDims: nat, fixed: Option<DTypeId>,
                                 requested: Option<Descr>, variant: Variant): (r: Outcome)
    requires maxDims <= MaxDims
    requires requested.Some? ==> fixed == Some(requested.value.dtype)
    ensures TypeRegistry.Shrinks(r.registry, reg)
    ensures r.result.Ok? ==>
              var d := r.result.value;
              && d.ndim <= maxDims && |d.shape| == maxDims
              // every dimension reported has a known extent
              && (forall k :: 0 <= k < d.ndim ==> d.shape[k] >= 0)
              // the cache starts with the input itself, if it holds anything
              && (|d.cache| > 0 ==> d.cache[0].obj == obj)
              && (requested.Some? ==> d.descr == requested.value)
              // ragged input warns without a fixed DType and is refused by any
              // fixed DType but object
              && (d.warned <==> fixed.None? && RaggedResult(d.flags, d.ndim, maxDims))
              && (d.warned ==> d.descr == ObjectDescr)
              && (fixed.Some? && fixed.value != ObjectDType ==> !RaggedResult(d.flags, d.ndim, maxDims))
              && d.flags.stringsAsSequences == InitialFlags(requested).stringsAsSequences
              && d.flags.tuplesAsElements == InitialFlags(requested).tuplesAsElements
    // the intended code never fails without setting an exception
    ensures variant == Intended ==> r.result != Err(NoExceptionSet)
    // and, with well-behaved DTypes, a fixed DType owns the discovered
    // descriptor unless a promotion failed on the way
    ensures variant == Intended && WellFormed(env) && fixed.Some? && requested.None? && r.result.Ok? &&
            !r.result.value.flags.promotionFailed && (fixed.value != ObjectDType || !r.result.value.flags.ragged) ==>
              r.result.value.descr.dtype == fixed.value
  {
    var st0 := State(seq(maxDims, _ => -1), None, [], InitialFlags(requested), reg);
    var call := Call(env, fixed, requested, variant);
    var walk := Recursive(call, obj, 0, maxDims, st0);
    if walk.Err? then Outcome(Err(walk.error), reg)
    else if walk.value.maxDims < 0 then Outcome(Err(NoExceptionSet), walk.value.st.registry)
    else Finish(call, obj, maxDims, st0, walk.value)
  }

  /** What `PyArray_DiscoverDTypeAndShape` does once the walk returned a
      dimension count: ragged handling and the choice of the descriptor. */
  function Finish(call: Call, obj: Node, maxDims: nat, st0: State, s: Step): (r: Outcome)
    requires 0 <= s.maxDims <= maxDims && |s.st.shape| == maxDims
    requires call.requested.Some? ==> call.fixed == Some(call.requested.value.dtype)
    ensures r.registry == s.st.registry
    ensures r.result.Err? ==> r.result.error != NoExceptionSet
    ensures r.result.Ok? ==>
              var d := r.result.value;
              && d.ndim == s.maxDims && d.shape == s.st.shape && d.cache == s.st.cache && d.flags == s.st.flags
              && (call.requested.Some? ==> d.descr == call.requested.value)
              && (d.warned <==> call.fixed.None? && RaggedResult(d.flags, d.ndim, maxDims))
              && (d.warned ==> d.descr == ObjectDescr)
              && (call.fixed.Some? && call.fixed.value != ObjectDType ==> !RaggedResult(d.flags, d.ndim, maxDims))
              && (!RaggedResult(d.flags, d.ndim, maxDims) && call.requested.None? ==>
                    Ok(d.descr) == (if s.st.descr.Some? then Ok(s.st.descr.value) else EmptyDescr(call.env, call.fixed)))
    ensures r.result.Ok? && WellFormed(call.env) && call.fixed.Some? && call.requested.None? &&
            DescrInFixed(s.st, call.fixed.value) && !r.result.value.flags.promotionFailed &&
            (call.fixed.value != ObjectDType || !r.result.value.flags.ragged) ==>
              r.result.value.descr.dtype == call.fixed.value
  {
    var ndim := s.maxDims;
    var ragged := RaggedResult(s.st.flags, ndim, maxDims);
    if ragged && call.fixed.None? && call.env.warningIsError then Outcome(Err(ExternalError), s.st.registry)
    else if ragged && call.fixed.Some? && call.fixed.value != ObjectDType then
      Outcome(Err(RaggedWithFixedDType), s.st.registry)
    else
      var descr := if ragged && call.fixed.None? then Some(ObjectDescr) else s.st.descr;
      var final :=
        if call.requested.Some? then Ok(call.requested.value)
        else if descr.Some? then Ok(descr.value)
        else EmptyDescr(call.env, call.fixed);
      if final.Err? then Outcome(Err(final.error), s.st.registry)
      else Outcome(Ok(Discovered(ndim, s.st.shape, final.value, s.st.cache, s.st.flags, ragged && call.fixed.None?)),
                   s.st.registry)
  }

  /** The `dtype` argument of the entry points: absent, a DType class, a DType
      instance (`unsized` for a legacy flexible instance such as a string of
      length 0 or a datetime without unit), or another object, which is tried
      as a registered scalar type. */
  datatype DTypeArg = NoDType | DTypeClass(dtype: DTypeId) | DTypeInstance(descr: Descr, unsized: bool)
                    | OtherObject(pytype: PyType)

  /** The requested descriptor and fixed DType class, and the registry left. */
  datatype Extracted = Extracted(result: Result<(Option<Descr>, Option<DTypeId>), Error>, registry: Registry)

  /** `PyArray_ExtractDTypeAndDescriptor`. */
  function ExtractDTypeAndDescriptor(env: Env, reg: Registry, arg: DTypeArg): (r: Extracted)
    ensures TypeRegistry.Shrinks(r.registry, reg)
    ensures arg.NoDType? ==> r == Extracted(Ok((None, None)), reg)
    // whenever a descriptor comes out, the class that comes with it is its own
    ensures r.result.Ok? && r.result.value.0.Some? ==> r.result.value.1 == Some(r.result.value.0.value.dtype)
    // an instance is kept as the requested descriptor unless it is unsized
    ensures arg.DTypeInstance? ==>
              r.result == Ok((if arg.unsized then None else Some(arg.descr), Some(arg.descr.dtype)))
    ensures arg.DTypeClass? ==> r.result == Ok((None, Some(arg.dtype)))
    // any other object must be a scalar type registered to a live DType
    ensures r.result == Err(DTypeArgument) <==>
              arg.OtherObject? && !TypeRegistry.LookupPyType(env, reg, arg.pytype).result.Known?
  {
    match arg
    case NoDType => Extracted(Ok((None, None)), reg)
    case DTypeClass(d) => Extracted(Ok((None, Some(d))), reg)
    case DTypeInstance(descr, unsized) => Extracted(Ok((if unsized then None else Some(descr), Some(descr.dtype))), reg)
    case OtherObject(t) =>
      var l := TypeRegistry.LookupPyType(env, reg, t);
      if l.result.Known? then Extracted(Ok((None, Some(l.result.dtype))), l.registry)
      else Extracted(Err(DTypeArgument), l.registry)
  }

  /** The discovered extents as the shape tuple. */
  function ShapeTuple(shape: seq<int>, ndim: nat): (r: seq<nat>)
    requires ndim <= |shape| && forall k :: 0 <= k < ndim ==> shape[k] >= 0
    ensures |r| == ndim && forall k :: 0 <= k < ndim ==> r[k] == shape[k]
  {
    seq(ndim, k requires 0 <= k < ndim => shape[k] as nat)
  }

  /** The descriptor and shape tuple, and the registry left. */
  datatype Parameters = Parameters(result: Result<(Descr, seq<nat>), Error>, registry: Registry)

  /** `_discover_array_parameters`: extract the dtype argument, then discover
      with the full dimension limit. */
  function DiscoverArrayParameters(env: Env, reg: Registry, obj: Node, arg: DTypeArg, variant: Variant): (r: Parameters)
    ensures TypeRegistry.Shrinks(r.registry, reg)
    ensures r.result.Ok? ==> |r.result.value.1| <= MaxDims
    // a sized dtype instance is what comes back, whatever the input holds
    ensures r.result.Ok? && arg.DTypeInstance? && !arg.unsized ==> r.result.value.0 == arg.descr
    ensures variant == Intended ==> r.result != Err(NoExceptionSet)
  {
    var e := ExtractDTypeAndDescriptor(env, reg, arg);
    if e.result.Err? then Parameters(Err(e.result.error), e.registry)
    else
      var o := DiscoverDTypeAndShape(env, e.registry, obj, MaxDims, e.result.value.1, e.result.value.0, variant);
      TypeRegistry.ShrinksTransitive(o.registry, e.registry, reg);
      if o.result.Err? then Parameters(Err(o.result.error), o.registry)
      else Parameters(Ok((o.result.value.descr, ShapeTuple(o.result.value.shape, o.result.value.ndim))), o.registry)
  }
}
