/**
 * The non-recursive steps of array-construction discovery
 * (array_coercion.c): classifying an object, finding and casting scalar
 * descriptors, promotion, the scalar and array-like cases of the walk.
 *
 * The walk's mutable state (output shape, running descriptor, coercion
 * cache, flags, and the global registry, which lookups may prune) is threaded
 * through as a `State` value.
 */
module DiscoverySteps {
  import opened Wrappers
  import opened Coercion
  import opened ShapeUpdate
  import TypeRegistry

  /** What stays fixed during one discovery: the collaborators, the DType
      class and descriptor the caller fixed, and which reading of the source's
      defects is followed. */
  datatype Call = Call(env: Env, fixed: Option<DTypeId>, requested: Option<Descr>, variant: Variant)

  datatype State = State(shape: seq<int>, descr: Option<Descr>, cache: seq<CacheEntry>,
                         flags: Flags, registry: Registry)

  /** A finished sub-walk: the dimension limit it leaves, and the state. */
  datatype Step = Step(maxDims: int, st: State)

  const ObjectDescr: Descr := DescrFromType(ObjectDType)

  /** Collaborators that keep to their side of the DType protocol: every
      descriptor a DType hands out is one of its own instances, and promoting
      two instances of one DType stays within it. */
  ghost predicate WellFormed(env: Env) {
    && (forall d, o :: env.discoverDescr(d, o).Found? ==> env.discoverDescr(d, o).descr.dtype == d)
    && (forall d :: env.defaultSlot(d).Slot? && env.defaultSlot(d).result.Some? ==>
          env.defaultSlot(d).result.value.dtype == d)
    && (forall d :: env.singleton(d).dtype == d)
    && (forall a: Descr, b: Descr :: a.dtype == b.dtype && env.promote(a, b).Some? ==> env.promote(a, b).value.dtype == a.dtype)
    && (forall a: Descr, f: Descr :: env.adaptFlexible(a, f).Some? ==> env.adaptFlexible(a, f).value.dtype == f.dtype)
  }

  /** Flags only ever get set, and the two mode flags never change. */
  predicate FlagsGrow(f: Flags, g: Flags) {
    && (f.ragged ==> g.ragged)
    && (f.reachedMaxDims ==> g.reachedMaxDims)
    && (f.promotionFailed ==> g.promotionFailed)
    && g.stringsAsSequences == f.stringsAsSequences
    && g.tuplesAsElements == f.tuplesAsElements
  }

  /** Every dimension below `n` has a known extent. */
  predicate SetBelow(shape: seq<int>, n: int) {
    forall k :: 0 <= k < n && k < |shape| ==> shape[k] >= 0
  }

  /** How a later state relates to an earlier one of a walk at depth `curr`:
      known extents and the dimensions above the walk are kept, the cache is
      only appended to, flags are only set, the registry only loses entries. */
  predicate Extends(st: State, st2: State, curr: int) {
    && |st2.shape| == |st.shape|
    && (forall k :: 0 <= k < |st.shape| && (k < curr || st.shape[k] != -1) ==> st2.shape[k] == st.shape[k])
    && st.cache <= st2.cache
    && FlagsGrow(st.flags, st2.flags)
    && TypeRegistry.Shrinks(st2.registry, st.registry)
  }

  lemma ExtendsTransitive(a: State, b: State, c: State, curr: int, curr2: int)
    requires Extends(a, b, curr) && Extends(b, c, curr2) && curr <= curr2
    ensures Extends(a, c, curr)
  {
    TypeRegistry.ShrinksTransitive(c.registry, b.registry, a.registry);
  }

  /** The running descriptor is, as far as promotion is concerned, one of the
      fixed DType's instances. */
  predicate DescrInFixed(st: State, f: DTypeId) {
    st.descr.None? || st.descr.value.dtype == f || st.flags.promotionFailed || st.flags.ragged
  }

  /** The situation in which the fixed DType must own every descriptor. */
  ghost predicate FixedOwnsDescrs(call: Call) {
    call.variant == Intended && WellFormed(call.env) && call.fixed.Some? && call.requested.None?
  }

  /** A classification's answer (a DType, None for "not a scalar", or an
      error) together with the registry it leaves behind. */
  datatype Classified = Classified(result: Result<Option<DTypeId>, Error>, registry: Registry)

  /** The legacy fall-back for an object whose type is not registered: an
      `np.generic` uses its descriptor's DType, a bytes or text object the
      byte or unicode DType, anything else what the Python-scalar search finds. */
  function LegacyDType(obj: Node): (r: Result<Option<DTypeId>, Error>)
    ensures r.Err? <==> LegacyOf(obj) == GenericScalar(None)
    ensures LegacyOf(obj).GenericScalar? && r.Ok? ==> r.value == LegacyOf(obj).scalarDType
    ensures obj.Str? && LegacyOf(obj).PlainObject? ==>
              r == Ok(Some(if obj.isBytes then ByteDType else UnicodeDType))
    ensures !obj.Str? && LegacyOf(obj).PlainObject? ==> r == Ok(LegacyOf(obj).pyScalar)
  {
    match LegacyOf(obj)
    case GenericScalar(s) => if s.Some? then Ok(s) else Err(ExternalError)
    case PlainObject(p) =>
      if obj.Str? then Ok(Some(if obj.isBytes then ByteDType else UnicodeDType)) else Ok(p)
  }

  /** The fixed DType claims the object: its exact scalar type, or an object
      its `is_known_scalar` hook (false when absent) recognises. */
  predicate ClaimedByFixed(env: Env, obj: Node, fixed: Option<DTypeId>) {
    fixed.Some? && (TypeOf(obj) == env.scalarType(fixed.value) || env.isKnownScalar(fixed.value, obj))
  }

  /** `discover_dtype_from_pyobject`. */
  function DiscoverFromPyobject(env: Env, reg: Registry, obj: Node, fixed: Option<DTypeId>): (r: Classified)
    ensures TypeRegistry.Shrinks(r.registry, reg)
    ensures ClaimedByFixed(env, obj, fixed) ==> r == Classified(Ok(fixed), reg)
    // otherwise a registered type decides: a live DType, or "not a scalar"
    ensures !ClaimedByFixed(env, obj, fixed) && TypeOf(obj) in TypeRegistry.Entries(reg) ==>
              r.result.Ok? &&
              (r.result.value.Some? <==>
                 TypeRegistry.Entries(reg)[TypeOf(obj)].WeakDType? &&
                 env.dtypeAlive(TypeRegistry.Entries(reg)[TypeOf(obj)].dtype))
    // and an unregistered type goes to the legacy fall-back
    ensures !ClaimedByFixed(env, obj, fixed) && TypeOf(obj) !in TypeRegistry.Entries(reg) ==>
              r == Classified(LegacyDType(obj), reg)
  {
    if ClaimedByFixed(env, obj, fixed) then Classified(Ok(fixed), reg)
    else
      var l := TypeRegistry.LookupPyType(env, reg, TypeOf(obj));
      match l.result
      case Known(d) => Classified(Ok(Some(d)), l.registry)
      case NonScalar => Classified(Ok(None), l.registry)
      case Unknown => Classified(LegacyDType(obj), l.registry)
  }

  /** Calling a DType's `default_descr` slot. */
  function DefaultDescr(env: Env, d: DTypeId): (r: Result<Descr, Error>)
    ensures env.defaultSlot(d).NoSlot? <==> r == Err(NullSlotCall)
    ensures r.Ok? <==> env.defaultSlot(d).Slot? && env.defaultSlot(d).result.Some?
    ensures WellFormed(env) && r.Ok? ==> r.value.dtype == d
  {
    match env.defaultSlot(d)
    case NoSlot => Err(NullSlotCall)
    case Slot(res) => if res.Some? then Ok(res.value) else Err(ExternalError)
  }

  /** `cast_descriptor_to_fixed_dtype`. */
  function CastToFixed(env: Env, descr: Descr, fixed: Option<DTypeId>): (r: Result<Descr, Error>)
    ensures fixed.None? ==> r == Ok(descr)
    // an instance of a parametric fixed DType is kept as it is
    ensures fixed.Some? && env.parametric(fixed.value) && descr.dtype == fixed.value ==> r == Ok(descr)
    // a non-parametric fixed DType always yields its default instance
    ensures fixed.Some? && !env.parametric(fixed.value) ==> r == DefaultDescr(env, fixed.value)
    ensures r == Err(CastNotImplemented) <==>
              fixed.Some? && env.parametric(fixed.value) && descr.dtype != fixed.value && !env.legacy(fixed.value)
    // the result is an instance of the fixed DType
    ensures WellFormed(env) && fixed.Some? && r.Ok? ==> r.value.dtype == fixed.value
  {
    if fixed.None? then Ok(descr)
    else
      var f := fixed.value;
      if !env.parametric(f) then DefaultDescr(env, f)
      else if descr.dtype == f then Ok(descr)
      else if env.legacy(f) then
        match env.adaptFlexible(descr, DescrFromType(f))
        case Some(d) => Ok(d)
        case None => Err(ExternalError)
      else Err(CastNotImplemented)
  }

  /** `find_scalar_descriptor`: `fixed` is given the first chance, then the
      DType `dtype` discovered for the object, whose answer is cast to `fixed`. */
  function FindScalarDescriptor(env: Env, fixed: Option<DTypeId>, dtype: Option<DTypeId>, obj: Node,
                                requested: Option<Descr>): (r: Result<Descr, Error>)
    ensures requested.Some? ==> r == Ok(requested.value)
    ensures requested.None? && fixed.Some? && env.discoverDescr(fixed.value, obj).Found? ==>
              r == Ok(env.discoverDescr(fixed.value, obj).descr)
    // without any DType the object becomes an `object` element
    ensures requested.None? && fixed.None? && dtype.None? ==> r == Ok(ObjectDescr)
    ensures r == Err(UnrepresentableObject) <==>
              requested.None? && fixed.Some? && dtype.None? && env.discoverDescr(fixed.value, obj).NotImplemented?
    // a DType that declines an object it claimed is reported as broken
    ensures r == Err(DTypeCannotHandleOwnScalar) <==>
              && requested.None? && dtype.Some?
              && (fixed.Some? ==> env.discoverDescr(fixed.value, obj).NotImplemented?)
              && (fixed == dtype || env.discoverDescr(dtype.value, obj).NotImplemented?)
    // whatever path is taken, the answer is an instance of the fixed DType
    ensures WellFormed(env) && requested.None? && fixed.Some? && r.Ok? ==> r.value.dtype == fixed.value
    ensures WellFormed(env) && requested.None? && fixed.None? && dtype.Some? && r.Ok? ==> r.value.dtype == dtype.value
  {
    if requested.Some? then Ok(requested.value)
    else if fixed.Some? && env.discoverDescr(fixed.value, obj).Raises? then Err(ExternalError)
    else if fixed.Some? && env.discoverDescr(fixed.value, obj).Found? then Ok(env.discoverDescr(fixed.value, obj).descr)
    else if fixed.Some? && dtype == fixed then Err(DTypeCannotHandleOwnScalar)
    else if dtype.None? then
      if fixed.Some? then Err(UnrepresentableObject) else Ok(ObjectDescr)
    else match env.discoverDescr(dtype.value, obj)
      case Raises => Err(ExternalError)
      case NotImplemented => Err(DTypeCannotHandleOwnScalar)
      case Found(d) => if fixed.None? then Ok(d) else CastToFixed(env, d, fixed)
  }

  /** The running descriptor and flags after one promotion step. */
  datatype Promoted = Promoted(descr: Option<Descr>, flags: Flags)

  /** `handle_promotion`. */
  function HandlePromotion(env: Env, out: Option<Descr>, descr: Descr, requested: Option<Descr>,
                           flags: Flags): (r: Promoted)
    // a requested descriptor switches promotion off entirely
    ensures requested.Some? ==> r == Promoted(out, flags)
    // the first descriptor is taken as it is, never promoted with itself
    ensures requested.None? && out.None? ==> r == Promoted(Some(descr), flags)
    ensures requested.None? ==> r.descr.Some?
    // a failed promotion is not an error: it flags and falls back to object
    ensures r.flags == (if requested.None? && out.Some? && env.promote(out.value, descr).None?
                        then flags.(promotionFailed := true) else flags)
    ensures requested.None? && out.Some? ==>
              r.descr == Some(env.promote(out.value, descr).GetOr(ObjectDescr))
  {
    if requested.Some? then Promoted(out, flags)
    else if out.None? then Promoted(Some(descr), flags)
    else match env.promote(out.value, descr)
      case Some(p) => Promoted(Some(p), flags)
      case None => Promoted(Some(ObjectDescr), flags.(promotionFailed := true))
  }

  /** Merging the zero dimensions of an element at depth `curr`. */
  function ElementShape(curr: nat, maxDims: int, shape: seq<int>, variant: Variant): (u: Update)
    requires maxDims <= |shape|
    ensures u == UpdateShape(curr, maxDims, shape, [], false, variant)
    ensures u.shape == shape && u.maxNdim <= maxDims
    ensures u.ok <==> curr <= maxDims && (maxDims == curr || shape[curr] < 0)
    ensures u.ok ==> u.maxNdim == curr
    ensures SetBelow(shape, curr) ==> SetBelow(shape, u.maxNdim)
    ensures variant == Intended && maxDims >= 0 ==> u.maxNdim >= 0
  {
    UpdateShapeSucceeds(curr, maxDims, shape, [], false, variant);
    UpdateShapeKnownBelow(curr, maxDims, shape, [], false, variant);
    var u := UpdateShape(curr, maxDims, shape, [], false, variant);
    assert u.shape == shape;
    u
  }

  /** `handle_scalar`: the object at depth `curr` is an element.  `fixed` and
      `dtype` are passed on to `FindScalarDescriptor` as given. */
  function HandleScalar(call: Call, obj: Node, curr: nat, maxDims: int, st: State,
                        fixed: Option<DTypeId>, requested: Option<Descr>, dtype: Option<DTypeId>): (r: Result<Step, Error>)
    requires maxDims <= |st.shape|
    ensures r.Err? <==> FindScalarDescriptor(call.env, fixed, dtype, obj, requested).Err?
    ensures r.Ok? ==> r.value.maxDims <= maxDims && Extends(st, r.value.st, |st.shape|)
    ensures r.Ok? ==> r.value.st.shape == st.shape && r.value.st.cache == st.cache && r.value.st.registry == st.registry
    ensures r.Ok? ==> r.value.st.flags.reachedMaxDims == st.flags.reachedMaxDims
    // an element ends the dimensions at its depth ...
    ensures r.Ok? && curr <= maxDims && (maxDims == curr || st.shape[curr] < 0) ==>
              r.value.maxDims == curr && r.value.st.flags.ragged == st.flags.ragged
    // ... unless that depth is already known to be deeper (or beyond the
    // limit): then the input is ragged and its descriptor becomes object
    ensures r.Ok? && !(curr <= maxDims && (maxDims == curr || st.shape[curr] < 0)) ==>
              r.value.st.flags.ragged && r.value.st.descr == Some(ObjectDescr)
    ensures r.Ok? && SetBelow(st.shape, curr) ==> SetBelow(r.value.st.shape, r.value.maxDims)
    ensures r.Ok? && call.variant == Intended && maxDims >= 0 ==> r.value.maxDims >= 0
    ensures r.Ok? && WellFormed(call.env) && requested.None? && fixed.Some? && DescrInFixed(st, fixed.value) ==>
              DescrInFixed(r.value.st, fixed.value)
  {
    var descr :- FindScalarDescriptor(call.env, fixed, dtype, obj, requested);
    var u := ElementShape(curr, maxDims, st.shape, call.variant);
    if !u.ok then
      Ok(Step(u.maxNdim, st.(descr := Some(ObjectDescr), flags := st.flags.(ragged := true))))
    else
      var p := HandlePromotion(call.env, st.descr, descr, requested, st.flags);
      Ok(Step(u.maxNdim, st.(descr := p.descr, flags := p.flags)))
  }

  /** The DType arguments of the element step inside an object array: the
      source passes the discovered DType where the fixed one belongs and the
      other way round; the intended call keeps them in their places. */
  function ElementDTypes(call: Call, discovered: Option<DTypeId>): (r: (Option<DTypeId>, Option<DTypeId>))
    ensures call.variant == Intended ==> r.0 == call.fixed
    ensures call.variant == AsWritten ==> r.0 == discovered
  {
    if call.variant == AsWritten then (discovered, call.fixed) else (call.fixed, discovered)
  }

  /** The loop over an object array's elements when a parametric DType is
      fixed: every element is classified and handled as a 0-d scalar, which
      only refines the running descriptor. */
  function ObjectElements(call: Call, elems: seq<Node>, i: nat, st: State): (r: Result<State, Error>)
    requires i <= |elems|
    ensures r.Ok? ==> Extends(st, r.value, |st.shape|)
    ensures r.Ok? ==> r.value.shape == st.shape && r.value.cache == st.cache
    ensures r != Err(NoExceptionSet)
    ensures r.Ok? && st.flags.ragged == false ==> r.value.flags.ragged == false
    ensures r.Ok? && FixedOwnsDescrs(call) && DescrInFixed(st, call.fixed.value) ==> DescrInFixed(r.value, call.fixed.value)
    decreases |elems| - i
  {
    if i == |elems| then Ok(st)
    else
      var c := DiscoverFromPyobject(call.env, st.registry, elems[i], call.fixed);
      if c.result.Err? then Err(c.result.error)
      else
        var args := ElementDTypes(call, c.result.value);
        var flat := st.(shape := [], registry := c.registry);
        var s :- HandleScalar(call, elems[i], 0, 0, flat, args.0, None, args.1);
        ObjectElements(call, elems, i + 1, s.st.(shape := st.shape))
  }

  /** The state after an array at depth `curr` has been cached and its shape
      merged into the output shape. */
  function ArrayEntered(call: Call, obj: Node, arr: Arr, curr: nat, maxDims: int, st: State): (r: (Update, State))
    requires maxDims <= |st.shape|
    ensures r.0 == UpdateShape(curr, maxDims, st.shape, arr.shape, false, call.variant)
    ensures r.1 == st.(shape := r.0.shape, cache := st.cache + [CacheEntry(obj, ConvArr(arr), false)])
    ensures Extends(st, r.1, curr) && r.0.maxNdim <= maxDims
    ensures SetBelow(st.shape, curr) ==> SetBelow(r.1.shape, r.0.maxNdim)
    ensures call.variant == Intended && maxDims >= 0 ==> r.0.maxNdim >= 0
  {
    var u := UpdateShape(curr, maxDims, st.shape, arr.shape, false, call.variant);
    UpdateShapeKnownBelow(curr, maxDims, st.shape, arr.shape, false, call.variant);
    (u, st.(shape := u.shape, cache := st.cache + [CacheEntry(obj, ConvArr(arr), false)]))
  }

  /** How an array's descriptor feeds the running descriptor once its shape
      fitted: an object array under a parametric fixed DType contributes its
      elements, any other array its descriptor cast to the fixed DType, and
      nothing is promoted when a descriptor was requested. */
  function ArrayDescr(call: Call, arr: Arr, st: State): (r: Result<State, Error>)
    ensures r.Ok? ==> Extends(st, r.value, |st.shape|)
    ensures r.Ok? ==> r.value.shape == st.shape && r.value.cache == st.cache
    ensures r != Err(NoExceptionSet)
    ensures r.Ok? && FixedOwnsDescrs(call) && DescrInFixed(st, call.fixed.value) ==>
              DescrInFixed(r.value, call.fixed.value)
    ensures r.Ok? && call.requested.Some? ==> r.value == st
  {
    if arr.descr.dtype == ObjectDType && call.fixed.Some? && call.env.parametric(call.fixed.value)
       && call.requested.None? then
      ObjectElements(call, arr.objElems, 0, st)
    else if call.requested.None? then
      var d :- CastToFixed(call.env, arr.descr, call.fixed);
      var p := HandlePromotion(call.env, st.descr, d, None, st.flags);
      Ok(st.(descr := p.descr, flags := p.flags))
    else Ok(st)
  }

  /** The array-like case of the walk: the array is cached, its shape merged,
      and, if it fitted, its descriptor feeds promotion. */
  function ArrayBranch(call: Call, obj: Node, arr: Arr, curr: nat, maxDims: int, st: State): (r: Result<Step, Error>)
    requires curr <= |st.shape| && maxDims <= |st.shape|
    ensures r.Ok? ==> r.value.maxDims <= maxDims && Extends(st, r.value.st, curr)
    ensures r.Ok? ==> r.value.st.cache == st.cache + [CacheEntry(obj, ConvArr(arr), false)]
    ensures r != Err(NoExceptionSet)
    ensures r.Ok? && SetBelow(st.shape, curr) ==> SetBelow(r.value.st.shape, r.value.maxDims)
    ensures r.Ok? && call.variant == Intended && maxDims >= 0 ==> r.value.maxDims >= 0
    ensures r.Ok? && FixedOwnsDescrs(call) && DescrInFixed(st, call.fixed.value) ==>
              DescrInFixed(r.value.st, call.fixed.value)
    // a requested descriptor leaves the running descriptor alone
    ensures r.Ok? && call.requested.Some? ==> r.value.st.descr == st.descr
  {
    var (u, st1) := ArrayEntered(call, obj, arr, curr, maxDims, st);
    if !u.ok then Ok(Step(u.maxNdim, st1.(flags := st1.flags.(ragged := true))))
    else
      var st2 :- ArrayDescr(call, arr, st1);
      ExtendsTransitive(st, st1, st2, curr, |st.shape|);
      Ok(Step(u.maxNdim, st2))
  }
}
