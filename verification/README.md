# A verified model of NumPy's array-construction and printing core

This project is a Dafny model of six pieces of NumPy's core, with proofs about each:

- **The discovery engine of `np.array`** (`array_coercion.c`). It takes a nested Python input (scalars, sequences, strings, array-likes) plus an optional fixed DType or requested descriptor. From these it computes:
  - the number of dimensions and the shape;
  - the promoted descriptor;
  - the discovery flags;
  - the pre-order coercion cache of every array and sequence visited.

  Around the shape-merging rule `update_shape` it also models:
  - the pytype-to-DType registry, including its weak entries;
  - scalar classification and the legacy fall-back;
  - casting to a fixed DType;
  - promotion and its fallback to `object`;
  - the ragged-input policy and the choice of the default descriptor.
- **`__array_function__` dispatch** (`overrides.py`): which arguments are asked, in which order, and whose answer wins. Also the dispatcher-signature check.
- **The shape rules of the stacking helpers** (`shape_base.py`): `atleast_1d/2d/3d`, `vstack`, `hstack`, `stack`, and the ndim computation and `concatenate` plan of `block`.
- **The descriptor helpers of `_internal.py`**:
  - `_gcd`, `_lcm` and `_prod`;
  - `_newnames` and `_makenames_list`;
  - `_array_descr` with its padding entries;
  - the byte-order rule of `_commastring`;
  - the view and field safety checks;
  - the field layout of the PEP 3118 format parser.
- **Print layout** (`arrayprint.py`):
  - the print options and the formatter precedence;
  - line wrapping;
  - summarisation;
  - the bool, structure and sub-array element formats;
  - the text `_formatArray` produces;
  - the dtype suffix of `array_repr`.
- **The number protocol guards** (`number.c`):
  - the truth value of an array and the length-1 conversions;
  - `__index__`;
  - the fast paths of `**` and the modulo rule of `array_power`;
  - the partial update of the numeric-ops table.

Python objects are values of datatypes (`Node`, `Arr`, `Descr`, `Arg`, `Nd`, …). Mutable C state is modelled as values threaded through pure functions:
- the output shape array;
- the running descriptor;
- the flags;
- the cache list;
- the registry dictionary;
- the `n_ops` table.

Collaborators the code calls but does not define are fields of an environment record: promotion, a DType's slots, `issubclass`, and a type's `__array_function__`. The proofs hold for every choice of them.

Two places in `array_coercion.c` and two in `arrayprint.py` behave differently from what the surrounding code evidently intends (see "## Findings"). Each such definition takes a `Variant` (`AsWritten` or `Intended`). The model follows the code as written, and the intended reading is proved alongside it.

Modules:
- `Wrappers`: Option/Result/Variant.
- `Coercion`: data model of the engine.
- `TypeRegistry`
- `ShapeUpdate`
- `DiscoverySteps`
- `Discovery`
- `DiscoveryNesting`: what the walk computes for rectangular nested lists.
- `DiscoveryFindings`
- `Overrides` and `OverridesExamples`
- `ShapeBase`
- `DescrMath`
- `FieldNames`
- `DescrProtocol`
- `Pep3118`
- `PrintOptions`
- `PrintLayout`
- `NumberOps`

## Model

| member | source | states |
|---|---|---|
| `Coercion.StrItems` | numpy/core/src/multiarray/array_coercion.c:625-638 | a string that is split under the character dtype yields one item per character: ints for bytes, one-character strings for text |
| `TypeRegistry.Prime` | numpy/core/src/multiarray/array_coercion.c:97-119 | a fresh table maps list, tuple and ndarray to "known non-scalar" and keeps every other entry |
| `TypeRegistry.LookupPyType` | numpy/core/src/multiarray/array_coercion.c:188-222 | an unknown type is reported unknown; a live weak entry gives its DType; a dead one is deleted (and nothing else is) and reported as a non-scalar |
| `TypeRegistry.LookupTwice` | numpy/core/src/multiarray/array_coercion.c:204-217 | a second lookup changes nothing more; after a pruning the type is simply unknown |
| `TypeRegistry.ShrinksTransitive` | numpy/core/src/multiarray/array_coercion.c:206-214 | lookups only ever delete entries, and that relation composes |
| `TypeRegistry.TableFor` | numpy/core/src/multiarray/array_coercion.c:151-160 | the table is created and primed on first registration |
| `TypeRegistry.MapPyTypeToDType` | numpy/core/src/multiarray/array_coercion.c:129-178 | a user type that is not an `np.generic` subclass is refused with the registry untouched; otherwise the table exists afterwards and keeps its entries; the duplicate error is raised iff the DType itself is already a key; on success the pytype maps weakly to the DType and only that key is added |
| `TypeRegistry.RegisterThenLookup` | numpy/core/src/multiarray/array_coercion.c:162-177 | after registering, a lookup finds the DType while it lives and prunes the entry once it is gone |
| `TypeRegistry.RegisterReplaces` | numpy/core/src/multiarray/array_coercion.c:162-170 | because the duplicate check tests the DType and not the pytype, a second DType for the same pytype silently replaces the first |
| `ShapeUpdate.FirstMismatch` | numpy/core/src/multiarray/array_coercion.c:465-486 | the first compared dimension whose slot is set to a different extent; all before it are compatible |
| `ShapeUpdate.UpdateShape` | numpy/core/src/multiarray/array_coercion.c:443-488 | the limit never grows and is unchanged by a successful sequence merge; set slots are never overwritten; a slot changes only inside the compared dimensions, and only to the new extent; as intended the limit never drops below the current depth |
| `ShapeUpdate.UpdateShapeSucceeds` | numpy/core/src/multiarray/array_coercion.c:449-486 | success iff the new dimensions fit below the limit, an array-like ends at the limit or before an unset slot, and every slot is unset or equal; the new extents are then in place |
| `ShapeUpdate.UpdateShapeKnownBelow` | numpy/core/src/multiarray/array_coercion.c:443-488 | when the limit is final, every dimension below it has a known extent |
| `ShapeUpdate.UpdateShapeLoop` | numpy/core/src/multiarray/array_coercion.c:465-487 | the imperative loop that fills slots and stops at the first mismatch computes exactly `UpdateShape` |
| `DiscoverySteps.ExtendsTransitive` | numpy/core/src/multiarray/array_coercion.c:606-824 | "a later state of the walk" composes: extents known stay known, the cache is only appended to, flags are only set |
| `DiscoverySteps.LegacyDType` | numpy/core/src/multiarray/array_coercion.c:275-309 | an `np.generic` without a descriptor fails; one with a descriptor gives its DType; bytes and text give the byte and unicode DTypes; anything else gives what the Python-scalar search finds |
| `DiscoverySteps.DiscoverFromPyobject` | numpy/core/src/multiarray/array_coercion.c:235-313 | an object the fixed DType claims gets that DType; a registered type answers from the registry, which may only lose an entry; an unregistered one takes the legacy path |
| `DiscoverySteps.DefaultDescr` | numpy/core/src/multiarray/array_coercion.c:326-331 | calling a missing slot is an error; a well-formed DType's default descriptor is its own |
| `DiscoverySteps.CastToFixed` | numpy/core/src/multiarray/array_coercion.c:316-352 | no fixed DType keeps the descriptor; a non-parametric one gives its default; a parametric one keeps its own instances; the not-implemented error arises iff a non-legacy parametric DType meets a foreign descriptor |
| `DiscoverySteps.FindScalarDescriptor` | numpy/core/src/multiarray/array_coercion.c:367-440 | a requested descriptor wins; otherwise the fixed DType is asked first, and without any DType the result is `object`; the two error cases are characterised exactly; the result belongs to the fixed (else discovered) DType |
| `DiscoverySteps.HandlePromotion` | numpy/core/src/multiarray/array_coercion.c:535-561 | a no-op under a requested descriptor; the first descriptor is adopted as is; a failed promotion never errors but sets the flag and continues with `object` |
| `DiscoverySteps.ElementShape` | numpy/core/src/multiarray/array_coercion.c:581-590 | an element merges zero dimensions: it fits iff it is at the limit or its slot is unset, and then the limit becomes the current depth |
| `DiscoverySteps.HandleScalar` | numpy/core/src/multiarray/array_coercion.c:581-603 | an error iff finding the descriptor fails; an element that does not fit marks the input ragged with an `object` descriptor; the shape, cache and registry are untouched |
| `DiscoverySteps.ElementDTypes` | numpy/core/src/multiarray/array_coercion.c:715-722 | which DType is passed as "fixed" for the elements of an object array: the discovered one as written, the fixed one as intended |
| `DiscoverySteps.ObjectElements` | numpy/core/src/multiarray/array_coercion.c:691-729 | the elements of an object array only refine the descriptor: the shape and cache stay as they are, and the result is never an error without an exception |
| `DiscoverySteps.ArrayEntered` | numpy/core/src/multiarray/array_coercion.c:674-688 | an array-like is cached before its shape is merged, and the state only grows |
| `DiscoverySteps.ArrayDescr` | numpy/core/src/multiarray/array_coercion.c:691-746 | an array's descriptor feeds promotion; nothing changes under a requested descriptor; the shape and cache are kept |
| `DiscoverySteps.ArrayBranch` | numpy/core/src/multiarray/array_coercion.c:659-747 | exactly one cache entry per array, recorded first; the limit only drops; the descriptor stays inside a fixed DType |
| `Discovery.Recursive` | numpy/core/src/multiarray/array_coercion.c:606-824 | the walk keeps the extents above it, known extents below its limit, a cache that starts with the object itself (elements are never cached), flags that only grow, and a registry that only shrinks |
| `Discovery.Visit` | numpy/core/src/multiarray/array_coercion.c:640-747 | a classified object is an element, an array or an array-like, with the walk's invariants |
| `Discovery.VisitOther` | numpy/core/src/multiarray/array_coercion.c:754-791 | an object that is not treated as a sequence never touches the cache; a sequence met at the dimension limit is an uncached element and sets the reached-max-dims flag |
| `Discovery.ScalarBranch` | numpy/core/src/multiarray/array_coercion.c:641-651 | an element never touches the cache, and one reached at the depth limit sets the flag |
| `Discovery.SeqEntered` | numpy/core/src/multiarray/array_coercion.c:792-805 | a sequence is cached before its length is merged; a length that does not fit only flags the input ragged |
| `Discovery.SequenceBranch` | numpy/core/src/multiarray/array_coercion.c:792-823 | the sequence is the first new cache entry; an empty sequence that fits ends the dimensions one level deeper with extent 0 |
| `Discovery.Items` | numpy/core/src/multiarray/array_coercion.c:812-823 | each item is visited one level deeper with the limit the previous one left, and the walk's invariants hold for the whole loop |
| `Discovery.WalkedDeeper` | numpy/core/src/multiarray/array_coercion.c:812-823 | a walk one level deeper from an extended state is a walk of this level |
| `Discovery.WalkedAfterPruning` | numpy/core/src/multiarray/array_coercion.c:204-217 | pruning the registry between steps keeps the walk's invariants |
| `Discovery.InitialFlags` | numpy/core/src/multiarray/array_coercion.c:905-918 | strings are split iff the requested descriptor is the `'c'` character variant of the string dtype; tuples are elements iff it is a structured void and strings are not split |
| `Discovery.EmptyDescr` | numpy/core/src/multiarray/array_coercion.c:964-986 | with no element found: the default type without a fixed DType, else the fixed DType's default or singleton, always of that DType |
| `Discovery.Finish` | numpy/core/src/multiarray/array_coercion.c:927-986 | ragged input warns and becomes `object` iff there is no fixed DType; a fixed DType other than `object` refuses it; a requested descriptor is returned as is; otherwise the promoted or default descriptor is used |
| `Discovery.DiscoverDTypeAndShape` | numpy/core/src/multiarray/array_coercion.c:877-994 | ndim within the limit and every reported extent known; the cache starts with the input; the requested descriptor is returned; the ragged policy; the mode flags are the initial ones; the descriptor is of the fixed DType unless promotion failed |
| `Discovery.ExtractDTypeAndDescriptor` | numpy/core/src/multiarray/array_coercion.c:1008-1046 | no argument gives nothing; an instance gives itself (unless unsized) and its DType; a class gives itself; any other object is an error iff it maps to no live DType |
| `Discovery.ShapeTuple` | numpy/core/src/multiarray/array_coercion.c:1083 | the shape tuple holds the first ndim extents |
| `Discovery.DiscoverArrayParameters` | numpy/core/src/multiarray/array_coercion.c:1049-1089 | the shape has at most 32 dimensions; an explicit descriptor is returned; as intended no error is raised without an exception |
| `DiscoveryNesting.WalkNest` | numpy/core/src/multiarray/array_coercion.c:606-824 | a successful walk of lists nested with equal lengths at every level, from a state that leaves room for them, writes the nesting extents into the shape at its depth, ends the dimensions at the total depth, appends exactly the lists of the input to the cache in pre-order (each once, before the lists inside it), and flags nothing ragged; with plain elements the walk succeeds |
| `DiscoveryNesting.DiscoversNesting` | numpy/core/src/multiarray/array_coercion.c:877-994 | for such an input within the dimension limit, a successful discovery reports ndim equal to the nesting depth, the nesting extents as the shape, the pre-order list of the input's lists as the cache, and no raggedness or warning; with plain elements discovery succeeds |
| `DiscoveryFindings.TrimAtMismatch` | numpy/core/src/multiarray/array_coercion.c:477 | merging (2,3,5) under (2,3,4) at depth 1 leaves the limit at -1 as written and 3 as intended |
| `DiscoveryFindings.TwoArraysAsWritten` | numpy/core/src/multiarray/array_coercion.c:813-821 | as written, `[zeros((2,3,4)), zeros((2,3,5))]` fails with no exception set |
| `DiscoveryFindings.TwoArraysIntended` | numpy/core/src/multiarray/array_coercion.c:927-956 | as intended, the same input is ragged at ndim 3, warned, with an `object` descriptor |
| `DiscoveryFindings.IntObjectArrayAsWritten` | numpy/core/src/multiarray/array_coercion.c:715-722 | as written, an object array holding an `np.int_` scalar, discovered under the fixed string DType, comes out as a long array without failed promotion or raggedness |
| `DiscoveryFindings.IntObjectArrayIntended` | numpy/core/src/multiarray/array_coercion.c:691-729 | as intended, the same array comes out as a string array |
| `Overrides.InsertIndex` | numpy/core/overrides.py:48-53 | the first earlier argument whose type the new one subclasses, else the end |
| `Overrides.CollectOne` | numpy/core/overrides.py:35-53 | a type already seen, or without `__array_function__`, changes nothing; a new one records its type and inserts the argument at `InsertIndex`, shifting the rest |
| `Overrides.CollectRecords` | numpy/core/overrides.py:33-53 | each protocol type is recorded once, in order of first appearance; each is represented by its first argument; under a partial order subclasses precede their superclasses; an argument stands ahead of one whose type appeared earlier only when a superclass of its own type lies between them |
| `Overrides.GetOverloadedTypesAndArgs` | numpy/core/overrides.py:15-61 | the types are those collected; the arguments are those collected whose type does not use ndarray's own implementation |
| `Overrides.OverloadedArgsAsked` | numpy/core/overrides.py:40-59 | every type with its own implementation has exactly its first argument asked; ndarray-implemented types are counted but not asked; subclasses come first |
| `Overrides.FilterKeepsOrder` | numpy/core/overrides.py:56-59 | the ndarray filter keeps the subclass-first order |
| `Overrides.FirstAnswer` | numpy/core/overrides.py:99-106 | the first answer that is not NotImplemented wins, and none is found iff every answer is NotImplemented |
| `Overrides.ImplementationOrOverride` | numpy/core/overrides.py:64-111 | the implementation is called iff no argument is asked; otherwise the first non-NotImplemented answer in order is returned; the TypeError arises iff all decline and names their types |
| `Overrides.VerifyMatchingSignatures` | numpy/core/overrides.py:117-136 | passes iff names, varargs, keywords, default presence and count match and all dispatcher defaults are None; an implementation with `()` defaults and a dispatcher with None makes `len(None)` raise |
| `OverridesExamples.SubclassesAskedFirst` | numpy/core/tests/test_overrides.py:127-130 | `[a, b, c]` with `b` and `c` subclassing `a` is asked as `[b, c, a]` |
| `OverridesExamples.DuckCollectsTwo` | numpy/core/tests/test_overrides.py:122-126 | `[a, b]` is collected as types `[A, B]` and arguments `[b, a]` |
| `OverridesExamples.NdarrayCountedNotAsked` | numpy/core/tests/test_overrides.py:25-43 | an ndarray counts among the types once but is never asked |
| `OverridesExamples.UnrelatedOvertaken` | numpy/core/overrides.py:48-53 | `[a, n, c]` with `c` a subclass of `a` and `n` unrelated to both is collected as `[c, a, n]`: an argument of an unrelated type can lose its place of first appearance |
| `ShapeBase.AtLeast1d` | numpy/core/shape_base.py:50-57 | `()` becomes `(1,)`; other shapes are unchanged; the size is kept |
| `ShapeBase.AtLeast2d` | numpy/core/shape_base.py:100-109 | at least two dimensions, missing ones as leading 1s; the size is kept |
| `ShapeBase.AtLeast3d` | numpy/core/shape_base.py:164-175 | `()`→`(1,1,1)`, `(N,)`→`(1,N,1)`, `(M,N)`→`(M,N,1)`, deeper unchanged; the size is kept |
| `ShapeBase.AtLeastIdempotent` | numpy/core/shape_base.py:100-179 | each `atleast_Nd` is idempotent, and `atleast_2d` sees through `atleast_1d` |
| `ShapeBase.Returning` | numpy/core/shape_base.py:58-61 | one input gives one array, several give a list |
| `ShapeBase.AtLeast1dAll` | numpy/core/shape_base.py:11-61 | applies `atleast_1d` to every input, returning one array or a list |
| `ShapeBase.AtLeast2dAll` | numpy/core/shape_base.py:63-113 | the same for `atleast_2d` |
| `ShapeBase.AtLeast3dAll` | numpy/core/shape_base.py:115-179 | the same for `atleast_3d` |
| `ShapeBase.VStack` | numpy/core/shape_base.py:237 | every part is at least 2-D and the same size, joined on axis 0 |
| `ShapeBase.HStack` | numpy/core/shape_base.py:288-293 | axis 0 iff the first array is at most 1-D, else axis 1 |
| `ShapeBase.NormalizeAxisIndex` | numpy/core/shape_base.py:357 | an axis in `[-ndim, ndim)` is taken modulo ndim; any other is an error |
| `ShapeBase.Stack` | numpy/core/shape_base.py:348-361 | no arrays, different shapes and a bad axis are the three errors; otherwise every array gets a new unit axis at the normalised position |
| `ShapeBase.StackShape` | numpy/core/shape_base.py:356-361 | the stacked shape is the common shape with the array count inserted at the axis |
| `ShapeBase.MaxOr0` | numpy/core/shape_base.py:493-496 | the largest value, or 0 for none |
| `ShapeBase.ElemNdimBounds` | numpy/core/shape_base.py:504 | `elem_ndim` bounds every element's ndim |
| `ShapeBase.ExactlyNd` | numpy/core/shape_base.py:487-491 | exactly `ndim` entries, leading 1s followed by the shape, same size |
| `ShapeBase.Normalize` | numpy/core/shape_base.py:508 | after `exactly_nd` every element has exactly the common ndim and the same size, and the nesting is unchanged |
| `ShapeBase.PlanAxes` | numpy/core/shape_base.py:511-520 | every `concatenate` of the plan gets an in-range axis for parts of the common ndim |
| `ShapeBase.BlockShapes` | numpy/core/shape_base.py:498-520 | the ndim is the larger of the list depth and the element ndim, and the plan is valid for it |
| `DescrMath.Gcd` | numpy/core/_internal.py:656-660 | a common divisor that every common divisor divides, and the greatest; 0 only for (0, 0) |
| `DescrMath.Lcm` | numpy/core/_internal.py:662-663 | a positive common multiple of both that divides every common multiple, so the least one; times the gcd it is the product |
| `DescrMath.EuclidStep` | numpy/core/_internal.py:658-659 | replacing `(a, b)` by `(b, a % b)` keeps the common divisors |
| `DescrMath.Prod` | numpy/core/_internal.py:650-654 | the loop computes the product of the extents, positive iff every extent is |
| `DescrMath.ProductAppend` | numpy/core/_internal.py:650-654 | the product of a concatenation is the product of the products |
| `FieldNames.RemoveFirst` | numpy/core/_internal.py:280-281 | `list.remove` takes away exactly one occurrence |
| `FieldNames.RemoveEachSpec` | numpy/core/_internal.py:279-283 | removing the requested names succeeds iff no name is asked more often than present, and leaves the multiset difference; otherwise the unknown name is one asked for |
| `FieldNames.NewNamesPermutes` | numpy/core/_internal.py:274-286 | a string is one name; another order type is refused; the requested names come first and the result permutes the old names |
| `FieldNames.RemoveEachKeepsOrder` | numpy/core/_internal.py:279-283 | with distinct names, the remaining names keep their order |
| `FieldNames.NewNamesOrder` | numpy/core/_internal.py:274-286 | with distinct names, the result is the requested names followed by the others in their order |
| `FieldNames.CollectFields` | numpy/core/_internal.py:22-41 | fails iff some entry has no length or is not a 2- or 3-tuple, or is not a title alias and has an offset `int()` refuses, a negative offset or a format `dtype()` refuses; an unsized first entry raises the TypeError of `len`; skips title aliases; keeps exactly the other entries' fields |
| `FieldNames.CollectFieldsFirstError` | numpy/core/_internal.py:25-35 | the error raised is that of the first bad entry, its checks taken in the order `len`, tuple test, `int`, offset sign, `dtype` |
| `FieldNames.Insert` | numpy/core/_internal.py:42 | inserting into a sorted list keeps it sorted and adds exactly that field |
| `FieldNames.SortByOffset` | numpy/core/_internal.py:42 | sorted by offset and a permutation of the input |
| `FieldNames.SortStable` | numpy/core/_internal.py:42 | fields sharing an offset keep their order |
| `FieldNames.MakeNamesList` | numpy/core/_internal.py:22-48 | fails iff some entry is bad, with the first bad entry's error; otherwise exactly the non-alias entries' fields, sorted by offset |
| `FieldNames.MakeNamesListStable` | numpy/core/_internal.py:22-48 | fields sharing an offset stay in dictionary order |
| `DescrProtocol.ArrayDescr` | numpy/core/_internal.py:85-126 | structures give field lists, sub-arrays give (base, shape), plain types give their typestring, with non-empty metadata attached |
| `DescrProtocol.LayoutPlaces` | numpy/core/_internal.py:105-120 | reading the list with its padding entries finds every field at its own offset |
| `DescrProtocol.LayoutSize` | numpy/core/_internal.py:105-120 | the list up to the last field spans exactly up to that field's end |
| `DescrProtocol.ArrayDescrRoundTrip` | numpy/core/_internal.py:85-126 | for a well-laid dtype the list, with trailing padding, spans the itemsize and places every field at its offset |
| `DescrProtocol.ViewIsSafe` | numpy/core/_internal.py:338-365 | safe iff the types are equal or neither holds objects |
| `DescrProtocol.FindField` | numpy/core/_internal.py:330-333 | some field sits at the offset with the type |
| `DescrProtocol.GetfieldIsSafe` | numpy/core/_internal.py:306-336 | with objects involved, safe only for the same type at offset 0 or an exactly matching field |
| `DescrProtocol.ByteOrder` | numpy/core/_internal.py:173-187 | two marks must agree once `=` is native, else error; the native and neutral marks become empty; the result is one of the marks |
| `Pep3118.Decimal` | numpy/core/_internal.py:480 | `'%d' % n` has one digit iff `n < 10` |
| `Pep3118.DecimalInjective` | numpy/core/_internal.py:480 | different numbers give different decimals, so the names `f<n>` are distinct |
| `Pep3118.DummyName` | numpy/core/_internal.py:475-483 | the first `f<n>` from the index on that is not taken, skipping only taken ones |
| `Pep3118.StartPadding` | numpy/core/_internal.py:553-557 | adding `(-offset) % align` gives a multiple of `align`, with less than `align` added |
| `Pep3118.Advance` | numpy/core/_internal.py:552-577 | under `@` the item starts at the next multiple of its alignment; otherwise at the offset, with no extra padding |
| `Pep3118.PlaceFields` | numpy/core/_internal.py:464-597 | each item but unnamed padding leaves one field, in item order: at the offset where the items before it end, aligned under `@` (`StepAt`), of the item's size, under its explicit name or a generated `f<n>`; the struct ends at `EndOf(items)`; fields do not overlap and have distinct names, so two items with one explicit name raise; under `@` each field starts at a multiple of its alignment, which divides the common alignment; an error is an explicit name an earlier field already has |
| `Pep3118.PlaceItem` | numpy/core/_internal.py:500-597 | one item: an explicit name already taken raises; otherwise the layout invariant holds one item further, with one more field exactly when the item is not unnamed padding |
| `Pep3118.NativeAndPacked` | numpy/core/_internal.py:552-566 | `"bi"` puts the integer at offset 4 and ends at 8; `"<bi"` puts it at 1 and ends at 5 |
| `Pep3118.NestedOrderPlacesStruct` | numpy/core/_internal.py:501-557 | in `"bT{i<b}"` the struct, whose parse ends under `<`, goes at offset 1 with no start padding, and `<` stays in force after it |
| `PrintOptions.MakeOptionsDict` | numpy/core/arrayprint.py:69-83 | the passed options, with the error raised iff `sign` is outside `-`, `+`, space and `legacy` |
| `PrintOptions.Update` | numpy/core/arrayprint.py:203 | each option passed replaces the current one and each one not passed keeps its value; passing nothing changes nothing |
| `PrintOptions.SetPrintoptions` | numpy/core/arrayprint.py:196-203 | a bad sign changes nothing; otherwise the passed options are set and `formatter` is replaced even when not passed |
| `PrintOptions.Array2StringOptions` | numpy/core/arrayprint.py:521-525 | the options of one call: the global ones with the passed ones on top, except `nanstr` and `infstr`, which stay global; failing iff the sign is bad |
| `PrintOptions.FormatterResetOnlyBySet` | numpy/core/arrayprint.py:199-203 | without a formatter argument `array2string` keeps the global formatter, while `set_printoptions` resets it; the rest is the same |
| `PrintOptions.SetIdempotent` | numpy/core/arrayprint.py:85-203 | setting the same options twice is setting them once |
| `PrintOptions.GetFormatdict` | numpy/core/arrayprint.py:262-305 | the table has exactly the eleven format keys, and is the built-in one without a formatter |
| `PrintOptions.FormatdictPrecedence` | numpy/core/arrayprint.py:283-303 | each key gets its own non-None formatter, else its kind's, else `all`'s, else the built-in one |
| `PrintLayout.RStrip` | numpy/core/arrayprint.py:536-537 | `rstrip` keeps a prefix that does not end in a blank |
| `PrintLayout.RStripRemovesBlanks` | numpy/core/arrayprint.py:536-537 | what it drops is blank |
| `PrintLayout.ExtendLine` | numpy/core/arrayprint.py:535-540 | the line is flushed without trailing blanks, and restarted from the prefix, iff both stripped lengths reach the width; then the word is appended |
| `PrintLayout.FillFits` | numpy/core/arrayprint.py:564-579 | when everything fits, no line is flushed and the words follow one another |
| `PrintLayout.Summarize` | numpy/core/arrayprint.py:555-562 | summarised iff there is a marker and more than `2*edge` items; then `edge` in front and at the back, else all |
| `PrintLayout.ShownItemsSpec` | numpy/core/arrayprint.py:564-579 | unsummarised, all items in order; summarised, the `edge` first and `edge` last, and always the last item |
| `PrintLayout.FormatRank1` | numpy/core/arrayprint.py:564-581 | a vector prints in brackets, ending in `]` and a newline |
| `PrintLayout.OneLine` | numpy/core/arrayprint.py:564-581 | a vector that fits prints as its words joined by the separator, in brackets |
| `PrintLayout.WrapExample` | numpy/core/arrayprint.py:535-581 | `arange(3)` at width 4 prints `[0 1` and ` 2]` on two lines |
| `PrintLayout.Nest` | numpy/core/arrayprint.py:582-607 | above rank one the sub-arrays go in brackets, ending in `]` and a newline |
| `PrintLayout.FormatArray` | numpy/core/arrayprint.py:543-608 | a 0-d array is its word; any other is bracketed |
| `PrintLayout.Array2String` | numpy/core/arrayprint.py:381-401 | an empty array prints `[]`; beyond the threshold the data are gathered first, with the global `edgeitems`, which fails exactly for a 0-d array (`len` raises) or, as written, for rank two or more with no edge items; otherwise the text is bracketed with the final newline dropped |
| `PrintLayout.LeadingTrailingFails` | numpy/core/arrayprint.py:234-249 | `_leading_trailing` of a non-empty array fails iff, as written, `edgeitems` is 0 and the rank is two or more |
| `PrintLayout.Array2StringEdgeZero` | numpy/core/arrayprint.py:381-401 | with `edgeitems=0` set globally, a summarised array of rank two or more raises from `concatenate` as written and prints as intended |
| `PrintLayout.Array2StringOneLine` | numpy/core/arrayprint.py:381-401 | a vector below the threshold that fits prints as its joined words in brackets, whatever the edge items |
| `PrintLayout.SummarisedBeyondThreshold` | numpy/core/arrayprint.py:381-401 | the printed text is `_formatArray`'s with the newline dropped, with the summary marker iff the size exceeds the threshold |
| `PrintLayout.Back` | numpy/core/arrayprint.py:234-249 | how many items from the back `_leading_trailing` keeps |
| `PrintLayout.Concatenate` | numpy/core/arrayprint.py:245-247 | `concatenate` of nothing raises |
| `PrintLayout.LeadingTrailingIntended` | numpy/core/arrayprint.py:234-249 | as intended, the data are exactly the printed elements |
| `PrintLayout.LeadingTrailingAgrees` | numpy/core/arrayprint.py:234-249 | with at least one edge item the code as written agrees with that |
| `PrintLayout.LeadingTrailingKeepsAllAtRank1` | numpy/core/arrayprint.py:238-241 | with `edgeitems=0` a summarised vector keeps every element though one is printed |
| `PrintLayout.LeadingTrailingFailsAboveRank1` | numpy/core/arrayprint.py:242-247 | with `edgeitems=0` a summarised array of rank two or more makes `concatenate` raise |
| `PrintLayout.BoolWord` | numpy/core/arrayprint.py:740-753 | `False` always; `True` without a blank for at most one element, or for a 0-d array in legacy style |
| `PrintLayout.BoolWordsAlign` | numpy/core/arrayprint.py:748-750 | for more than one element, both words have the same width |
| `PrintLayout.BoolWordRoundTrip` | numpy/core/arrayprint.py:740-753 | the word reads back as the value |
| `PrintLayout.StructureFormatIsTuple` | numpy/core/arrayprint.py:882-891 | a record prints as the Python tuple of its fields, as written whenever it has a field |
| `PrintLayout.StructureFormatNoFields` | numpy/core/arrayprint.py:887-891 | as written, a record without fields prints `)` instead of `()` |
| `PrintLayout.SubArrayBrackets` | numpy/core/arrayprint.py:872-880 | a sub-array field opens and closes one bracket per dimension written |
| `PrintLayout.QuoteTypename` | numpy/core/arrayprint.py:961-963 | the name is quoted unless empty or alphabetic-first and alphanumeric |
| `PrintLayout.QuoteRoundTrip` | numpy/core/arrayprint.py:961-963 | the quotes come off again |
| `PrintLayout.ReprList` | numpy/core/arrayprint.py:950-954 | the elements as listed unless the array is empty with a shape other than `(0,)` |
| `PrintLayout.ReprShowsDtype` | numpy/core/arrayprint.py:956-970 | a non-empty array of a default type has no dtype suffix; any other repr ends with `dtype=` and a name that reads back as the dtype's |
| `NumberOps.GetNumericOps` | numpy/core/src/multiarray/number.c:121-174 | exactly the set ops, except `cbrt`, each as set |
| `NumberOps.SetFromSucceeds` | numpy/core/src/multiarray/number.c:63-75 | with callable values the listed ops are replaced by the dictionary's and the rest are kept |
| `NumberOps.SetFromFails` | numpy/core/src/multiarray/number.c:63-75 | a non-callable value stops the update there, keeping what was already replaced |
| `NumberOps.SetNumericOpsSpec` | numpy/core/src/multiarray/number.c:78-118 | success iff every value is callable; then exactly the keys given are replaced |
| `NumberOps.SetNumericOpsPartial` | numpy/core/src/multiarray/number.c:78-118 | on failure -1 is returned and the ops listed before the bad one stay replaced |
| `NumberOps.SetWhatWasGot` | numpy/core/src/multiarray/number.c:63-174 | setting what was got succeeds and changes nothing |
| `NumberOps.GetWhatWasSet` | numpy/core/src/multiarray/number.c:63-174 | a set op is reported as set, except `cbrt` |
| `NumberOps.Nonzero` | numpy/core/src/multiarray/number.c:785-814 | size 0 is false; size 1 is the element's truth; more raises the ambiguity error |
| `NumberOps.ToScalar` | numpy/core/src/multiarray/number.c:817-893 | `int()`/`float()` succeed iff the array has one element, its item is fetched and is a number with that slot and not a self-referencing object array, and the slot call does not raise; other sizes raise the length-1 error; a failing fetch or slot call is the element's own error; the result is the item through that slot |
| `NumberOps.ToIndex` | numpy/core/src/multiarray/number.c:1033-1042 | only a 0-d integer array is an index, and its value |
| `NumberOps.ScalarWithConversion` | numpy/core/src/multiarray/number.c:387-455 | only Python ints and integer scalars count as positive-integer exponents |
| `NumberOps.FastScalarPower` | numpy/core/src/multiarray/number.c:457-533 | a copy only out of place, the array itself only in place; the unary ops are reciprocal, ones_like, sqrt and square; only an integer array squares through a cast to double |
| `NumberOps.FastPathExponents` | numpy/core/src/multiarray/number.c:463-533 | a fast path exists iff the exponent is a scalar equal to 2, or the array is inexact and the exponent is 1, -1, 0 or 0.5 |
| `NumberOps.FastPathIsPower` | numpy/core/src/multiarray/number.c:463-533 | each fast path for an integer exponent computes `x**n` |
| `NumberOps.ArrayPower` | numpy/core/src/multiarray/number.c:535-551 | a modulo gives NotImplemented; the generic `power` is used iff there is no fast path |

## Left out

- CPython mechanics are not modelled: reference counts, memory errors, the exception state beyond an error value, and weak-reference objects (a weak entry is a DType id plus an aliveness oracle).
- The coercion cache's allocation and `npy_free_coercion_cache` are not modelled: a failed discovery returns no cache at all, which is what freeing it and setting it to NULL amounts to.
- Promotion (`PyArray_PromoteTypes`), `PyArray_AdaptFlexibleDType`, dtype construction, the DType slots and `__array__`/the array interface are parameters of the environment record.
- `PySequence_Fast` is modelled by the items a `List`, `Tuple` or string node yields. A node whose conversion raises KeyError is an element; any other failure is an `ExternalError`.
- Warnings are the `warned` flag of the outcome. Their text and the warning filter are not modelled.
- The `Uninitialized` registry behaves as an empty one for lookups. On an error, the registry pruned so far is dropped and the input registry returned, because the source's failure paths return before any later lookup.
- `DiscoverySteps.ObjectElements`: an element whose discovery raises stops the loop with that error. The source (array_coercion.c:714-719) does not check the result for NULL and goes on into `handle_scalar` with no DType and the exception pending; what that call then does with a pending exception is CPython behaviour the model does not describe.
- The conversion of an array-like does not depend on the requested descriptor.
- The subclass-warning flag of the source is set nowhere in the shown code and is not modelled.
- Dtype equality is structural equality.
- `array_function_dispatch` (the decorator) only wires the functions above together and is not modelled.
- `concatenate` is abstract: `stack`, `vstack`, `hstack` and `block` produce a call record (the parts and the axis), and `block` a tree of such calls.
- `_usefields`, `_copy_fields`, `_reconstruct`, the `_ctypes` helpers, `_getintp_ctype`, `_add_trailing_padding` and the regular-expression parsing of `_commastring` are not modelled. The PEP 3118 parser is modelled from already-parsed items: the dtype it builds and the "simple 1-item type" shortcut are not modelled. A nested `T{...}` is one item with its size and alignment given. The byte order is shared with the enclosing format, and the struct itself is placed under the order its own parse ends with. So the flattened item carries that order as its own `order` (`None` when the struct sets none), and the items after it read it too.
- Floating-point formatting (`FloatFormat`, `LongFloatFormat`, `ComplexFormat`, `IntegerFormat`), datetime formatting, `_get_format_function`, `_recursive_guard` (per-thread reentrancy), `array_str` and `set_string_function` are not modelled. Element words are given strings.
- `str.isalpha` and `str.isalnum` are ASCII only. `str.isspace` covers the ASCII blanks, U+001C–U+001F and the Unicode spaces U+0085, U+00A0, U+1680, U+2000–U+200A, U+2028, U+2029, U+202F, U+205F and U+3000.
- The arithmetic wrappers of `number.c` (`array_add` and the like), the ufunc calls, `array_long`/`array_oct`/`array_hex` (Python 2 only) and the binop deferral macro (a `deferToOther` flag) are not modelled.
- The C double conversion of the exponent is a real number, without rounding or overflow. `PyArray_SetNumericOps` dictionary keys that name no op are ignored, as the source ignores them.
- `DescrMath.Gcd`: stated on natural numbers only, because alignments and sizes are never negative. Python's `%` on negative operands is not modelled.
- `DescrMath.Lcm`: true division is modelled as exact natural division, which it is because the gcd divides `a`. The float result type is not modelled.
- `Pep3118.PlaceFields`: states the placement (offsets, sizes, names, alignment) and not the dtype object built from it. A generated name is stated to be some `f<n>`, not which `n`; the common alignment is stated to be a multiple of every native alignment, not their least common multiple.
- `FieldNames.CollectFields` and `FieldNames.MakeNamesList`: `int(obj[1])` and `dtype(obj[0], align=align)` are given as flags (`offsetConverts`, `formatValid`) and the offset as the integer `int()` returns. The truncation of a float offset toward zero (-0.5 reads as 0 and passes) and the rules by which `dtype()` accepts a format are not computed.
- `PrintLayout.ReprShowsDtype`: requires a non-flexible dtype. For flexible dtypes only `ReprSuffix`'s text is modelled, including the line break before `dtype=`.
- `PrintLayout.FormatArray`: states the bracket shape of the text. The full text is stated for one-line vectors (`OneLine`, `Array2StringOneLine`) and by the wrapping example.
- `NumberOps.ScalarWithConversion`: states only which operands are positive-integer exponents. The exponent value is checked through `FastPathExponents`.
- `Discovery.DiscoverDTypeAndShape`: the descriptor's DType is stated only for the intended variant, and only when promotion did not fail.

## Findings

| source | as written | input that shows it | evidently intended | confidence | as-written member | corrected member |
|---|---|---|---|---|---|---|
| numpy/core/src/multiarray/array_coercion.c:477 | `*max_ndim -= new_ndim + i` trims the limit to `curr - i`, below the current depth, and below 0 once `i > curr` | `np.array([np.zeros((2,3,4)), np.zeros((2,3,5))])`: the limit becomes -1, and the item loop returns -1 without an exception set | trim to `curr + i`, the dimensions that still agree: a ragged result of ndim 3 | high, not executed | `DiscoveryFindings.TwoArraysAsWritten` | `DiscoveryFindings.TwoArraysIntended` |
| numpy/core/src/multiarray/array_coercion.c:719 | `handle_scalar` gets the element's discovered DType as `fixed_DType` and the fixed DType as `DType` | an object array holding an `np.int_` scalar, discovered with the string DType fixed: the result descriptor is `long`. This assumes the string DType's `is_known_scalar` hook (dtypemeta.c, which is not part of this model) does not claim NumPy integer scalars | the fixed DType in the `fixed_DType` argument: a string descriptor | medium, not executed | `DiscoveryFindings.IntObjectArrayAsWritten` | `DiscoveryFindings.IntObjectArrayIntended` |
| numpy/core/arrayprint.py:238-247 | with `edgeitems=0`, `a[-0:]` keeps the whole vector, and for rank ≥ 2 `range(0, 0, -1)` is empty, so `concatenate([])` raises | `set_printoptions(edgeitems=0, threshold=0)` then printing a 2×2 array | the data of the printed elements, which always include the last item | medium, not executed | `PrintLayout.Array2StringEdgeZero` | `PrintLayout.LeadingTrailingIntended` |
| numpy/core/arrayprint.py:887-891 | with no fields, `s[:-1]` drops the `(` as well | a `StructureFormat` with no format functions prints `)` | `()`, the empty tuple | medium, not executed | `PrintLayout.StructureFormatNoFields` | `PrintLayout.StructureFormatIsTuple` |
