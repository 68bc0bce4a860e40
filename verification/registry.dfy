/**
 * The global pytype -> DType dictionary of array_coercion.c: priming with the
 * known sequence types, registration of a scalar type for a DType, and the
 * lookup that prunes mappings whose DType has been collected.
 */
module TypeRegistry {
  import opened Wrappers
  import opened Coercion

  /** The answer of a lookup: no entry, a known non-scalar, or a live DType. */
  datatype Lookup = Unknown | NonScalar | Known(dtype: DTypeId)

  /** A lookup's answer together with the registry it leaves behind. */
  datatype Looked = Looked(result: Lookup, registry: Registry)

  /** A registration's outcome together with the registry it leaves behind
      (the table may have been created even when registration then fails). */
  datatype Registered = Registered(result: Result<(), Error>, registry: Registry)

  function Entries(reg: Registry): map<PyType, RegEntry> {
    if reg.Table? then reg.entries else map[]
  }

  /** `after` keeps a subset of the entries of `before`, each unchanged. */
  predicate Shrinks(after: Registry, before: Registry) {
    && (before.Uninitialized? ==> after.Uninitialized?)
    && (before.Table? ==> after.Table?)
    && forall t :: t in Entries(after) ==> t in Entries(before) && Entries(after)[t] == Entries(before)[t]
  }

  lemma ShrinksTransitive(a: Registry, b: Registry, c: Registry)
    requires Shrinks(a, b) && Shrinks(b, c)
    ensures Shrinks(a, c)
  {
  }

  /** The sequence types every fresh table starts with. */
  function Prime(entries: map<PyType, RegEntry>): (r: map<PyType, RegEntry>)
    ensures r.Keys == entries.Keys + {ListType, TupleType, NdarrayType}
    ensures r[ListType] == KnownNonScalar && r[TupleType] == KnownNonScalar && r[NdarrayType] == KnownNonScalar
    ensures forall t :: t in entries && t != ListType && t != TupleType && t != NdarrayType ==> r[t] == entries[t]
  {
    entries[ListType := KnownNonScalar][TupleType := KnownNonScalar][NdarrayType := KnownNonScalar]
  }

  /** `discover_dtype_from_pytype`: look `t` up; a mapping whose DType is gone
      is deleted and reported as a known non-scalar. */
  function LookupPyType(env: Env, reg: Registry, t: PyType): (r: Looked)
    ensures Shrinks(r.registry, reg)
    // only the looked-up key can disappear, and only when its DType is dead
    ensures forall u :: u in Entries(reg) && u !in Entries(r.registry) ==>
              u == t && Entries(reg)[t].WeakDType? && !env.dtypeAlive(Entries(reg)[t].dtype)
    ensures r.result.Unknown? <==> t !in Entries(reg)
    ensures r.result.Known? <==>
              t in Entries(reg) && Entries(reg)[t].WeakDType? && env.dtypeAlive(Entries(reg)[t].dtype)
    ensures r.result.Known? ==> r.result.dtype == Entries(reg)[t].dtype
  {
    if t !in Entries(reg) then Looked(Unknown, reg)
    else match Entries(reg)[t]
      case KnownNonScalar => Looked(NonScalar, reg)
      case WeakDType(d) =>
        if env.dtypeAlive(d) then Looked(Known(d), reg)
        else Looked(NonScalar, Table(Entries(reg) - {t}))
  }

  /** A second lookup of the same type answers as the first did, except that a
      pruned mapping is then simply missing; it changes nothing further. */
  lemma LookupTwice(env: Env, reg: Registry, t: PyType)
    ensures var first := LookupPyType(env, reg, t);
            var second := LookupPyType(env, first.registry, t);
            && second.registry == first.registry
            && (first.registry == reg ==> second.result == first.result)
            && (first.registry != reg ==> first.result == NonScalar && second.result == Unknown)
  {
  }

  /** The table a registration works on: the existing one, or a fresh primed
      one when none exists yet. */
  function TableFor(reg: Registry): (r: map<PyType, RegEntry>)
    ensures reg.Table? ==> r == reg.entries
    ensures reg.Uninitialized? ==> r.Keys == {ListType, TupleType, NdarrayType}
  {
    if reg.Uninitialized? then Prime(map[]) else reg.entries
  }

  /** `_PyArray_MapPyTypeToDType`. */
  function MapPyTypeToDType(env: Env, reg: Registry, dtype: DTypeId, pytype: PyType, userdef: bool): (r: Registered)
    // user DTypes may only claim `np.generic` subclasses; nothing changes otherwise
    ensures userdef && !env.isGenericSubclass(pytype) ==> r == Registered(Err(RegisterNonGeneric), reg)
    // past that check the table exists, primed with the sequence types if it is new
    ensures !(userdef && !env.isGenericSubclass(pytype)) ==>
              && r.registry.Table?
              && forall t :: t in TableFor(reg) && t != pytype ==> t in r.registry.entries && r.registry.entries[t] == TableFor(reg)[t]
    // the duplicate check refuses a DType that is itself a key of the table
    ensures r.result == Err(RegisterDuplicate) <==>
              !(userdef && !env.isGenericSubclass(pytype)) && DTypeAsType(dtype) in TableFor(reg)
    // otherwise the type now maps to the DType and nothing else was added
    ensures r.result.Ok? ==>
              && pytype in Entries(r.registry) && Entries(r.registry)[pytype] == WeakDType(dtype)
              && Entries(r.registry).Keys == TableFor(reg).Keys + {pytype}
  {
    if userdef && !env.isGenericSubclass(pytype) then Registered(Err(RegisterNonGeneric), reg)
    else
      var entries := TableFor(reg);
      if DTypeAsType(dtype) in entries then Registered(Err(RegisterDuplicate), Table(entries))
      else Registered(Ok(()), Table(entries[pytype := WeakDType(dtype)]))
  }

  /** After a successful registration the type is found as that DType while
      the DType lives, and is pruned to a non-scalar once it is gone. */
  lemma RegisterThenLookup(env: Env, reg: Registry, dtype: DTypeId, pytype: PyType, userdef: bool)
    requires MapPyTypeToDType(env, reg, dtype, pytype, userdef).result.Ok?
    ensures var after := MapPyTypeToDType(env, reg, dtype, pytype, userdef).registry;
            var found := LookupPyType(env, after, pytype);
            && (env.dtypeAlive(dtype) ==> found == Looked(Known(dtype), after))
            && (!env.dtypeAlive(dtype) ==> found.result == NonScalar && pytype !in Entries(found.registry))
  {
  }

  /** Registration does not check whether the type already has a mapping: a
      second DType silently replaces the first. */
  lemma RegisterReplaces(env: Env, reg: Registry, d1: DTypeId, d2: DTypeId, pytype: PyType)
    requires d1 != d2 && env.isGenericSubclass(pytype)
    requires DTypeAsType(d1) !in Entries(reg) && DTypeAsType(d2) !in Entries(reg)
    requires DTypeAsType(d2) != pytype && DTypeAsType(d2) !in {ListType, TupleType, NdarrayType}
    ensures var first := MapPyTypeToDType(env, reg, d1, pytype, true);
            var second := MapPyTypeToDType(env, first.registry, d2, pytype, true);
            first.result.Ok? && second.result.Ok? && Entries(second.registry)[pytype] == WeakDType(d2)
  {
  }
}
