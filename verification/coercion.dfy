/**
 * Data model of array-construction discovery (array_coercion.c): the nested
 * input objects, DType classes and their instances (descriptors), the
 * pytype -> DType registry, the discovery flags and the coercion cache.
 *
 * Everything the engine asks of a DType class, or of Python, and that the
 * file does not define itself is an oracle in `Env`.
 */
module Coercion {
  import opened Wrappers

  /** DType classes are identified by number; a few have fixed identities
      because the engine names them directly. */
  type DTypeId = nat

  const ObjectDType: DTypeId := 0   // NPY_OBJECT
  const StringDType: DTypeId := 1   // NPY_STRING
  const VoidDType: DTypeId := 2     // NPY_VOID
  const UnicodeDType: DTypeId := 3  // NPY_UNICODE
  const ByteDType: DTypeId := 4     // NPY_BYTE
  const DoubleDType: DTypeId := 5   // NPY_DOUBLE, which is NPY_DEFAULT_TYPE
  const LongDType: DTypeId := 6     // the legacy DType of a Python int

  /** Python type objects, compared by identity.  A DType class is itself a
      Python type and may therefore appear as a registry key. */
  datatype PyType =
    | ListType | TupleType | NdarrayType | BytesType | UnicodeType | IntType
    | DTypeAsType(dtype: DTypeId)
    | OtherType(id: nat)

  /** A DType instance.  `param` stands for the instance's parameters (string
      length, byte order, unit, ...); the engine only inspects the two flags. */
  datatype Descr = Descr(dtype: DTypeId, param: nat, charCode: bool, structured: bool)

  /** The canonical instance `PyArray_DescrFromType` returns for a class. */
  function DescrFromType(d: DTypeId): (r: Descr)
    ensures r.dtype == d && !r.charCode && !r.structured
  {
    Descr(d, 0, false, false)
  }

  /** What the legacy fall-back learns about an object that is not in the
      registry: an `np.generic` instance (whose descriptor lookup may fail), or
      any other object for which `_array_find_python_scalar_type` may find a
      Python scalar type. */
  datatype LegacyKind = GenericScalar(scalarDType: Option<DTypeId>) | PlainObject(pyScalar: Option<DTypeId>)

  /** How a would-be sequence fails to become one. */
  datatype SeqFailure = SizeFails | IterKeyError | IterOtherError

  /** An existing array: shape, descriptor and, for object arrays, the elements
      in iteration order. */
  datatype Arr = Arr(shape: seq<nat>, descr: Descr, objElems: seq<Node>)

  /** The nested input.  `Leaf` is any object that is neither array-like nor a
      sequence; `ArrayLike` is an object offering the array protocols, whose
      conversion either yields an array or raises. */
  datatype Node =
    | Leaf(pytype: PyType, legacy: LegacyKind)
    | Str(isBytes: bool, len: nat, pytype: PyType, legacy: LegacyKind)
    | Array(pytype: PyType, arr: Arr)
    | ArrayLike(pytype: PyType, conv: Option<Arr>)
    | List(items: seq<Node>)
    | Tuple(items: seq<Node>)
    | BadSequence(pytype: PyType, failure: SeqFailure)

  function TypeOf(n: Node): PyType {
    match n
    case List(_) => ListType
    case Tuple(_) => TupleType
    case Leaf(t, _) => t
    case Str(_, _, t, _) => t
    case Array(t, _) => t
    case ArrayLike(t, _) => t
    case BadSequence(t, _) => t
  }

  function LegacyOf(n: Node): LegacyKind {
    match n
    case Leaf(_, l) => l
    case Str(_, _, _, l) => l
    case _ => PlainObject(None)
  }

  /** The items a sequence yields (`PySequence_Fast`): a bytes object yields
      Python ints, a text string yields one-character strings. */
  function CharItem(isBytes: bool): Node {
    if isBytes then Leaf(IntType, PlainObject(Some(LongDType)))
    else Str(false, 1, UnicodeType, PlainObject(None))
  }

  function StrItems(isBytes: bool, len: nat): (r: seq<Node>)
    ensures |r| == len && forall i :: 0 <= i < len ==> r[i] == CharItem(isBytes)
  {
    seq(len, _ => CharItem(isBytes))
  }

  /** The outcome of a DType's `discover_descr_from_pyobject`. */
  datatype DescrDiscovery = Found(descr: Descr) | NotImplemented | Raises

  /** A DType's `default_descr` slot: absent (NULL), or present and either
      producing an instance or raising. */
  datatype DefaultSlot = NoSlot | Slot(result: Option<Descr>)

  /** Everything the engine consults but does not define. */
  datatype Env = Env(
    parametric: DTypeId -> bool,
    legacy: DTypeId -> bool,
    scalarType: DTypeId -> PyType,
    isKnownScalar: (DTypeId, Node) -> bool,
    discoverDescr: (DTypeId, Node) -> DescrDiscovery,
    defaultSlot: DTypeId -> DefaultSlot,
    singleton: DTypeId -> Descr,
    promote: (Descr, Descr) -> Option<Descr>,
    adaptFlexible: (Descr, Descr) -> Option<Descr>,
    isGenericSubclass: PyType -> bool,
    dtypeAlive: DTypeId -> bool,
    warningIsError: bool)

  /** A registry value: a known non-scalar (None), or a weak reference to a
      DType class, dead once `Env.dtypeAlive` says the class is gone. */
  datatype RegEntry = KnownNonScalar | WeakDType(dtype: DTypeId)

  /** The global pytype -> DType dictionary; NULL until first registration. */
  datatype Registry = Uninitialized | Table(entries: map<PyType, RegEntry>)

  /** `_dtype_discovery_flags`.  GAVE_SUBCLASS_WARNING is never set by the
      source (its only setter sits behind `0 &&`) and is not modelled. */
  datatype Flags = Flags(ragged: bool, reachedMaxDims: bool, promotionFailed: bool,
                         stringsAsSequences: bool, tuplesAsElements: bool)

  const NoFlags := Flags(false, false, false, false, false)

  /** One coercion-cache entry: the visited object, what it was converted to,
      and whether it was a sequence (1) or an array (0). */
  datatype Converted = ConvArr(arr: Arr) | ConvSeq(items: seq<Node>)
  datatype CacheEntry = CacheEntry(obj: Node, converted: Converted, sequence: bool)

  /** Errors the engine reports.  `ExternalError` is any exception raised by a
      collaborator (descriptor discovery, the array protocol, sequence
      conversion, `default_descr`, flexible adaptation, a warning turned into an
      error); `NoExceptionSet` is a -1 return with no Python exception pending;
      `NullSlotCall` is a call through an absent `default_descr` slot. */
  datatype Error =
    | RegisterNonGeneric
    | RegisterDuplicate
    | UnrepresentableObject
    | DTypeCannotHandleOwnScalar
    | CastNotImplemented
    | RaggedWithFixedDType
    | DTypeArgument
    | ExternalError
    | NullSlotCall
    | NoExceptionSet
}
