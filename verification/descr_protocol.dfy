/**
 * Dtype descriptions in `numpy/core/_internal.py`: `_array_descr`, which
 * writes a dtype as an `__array_interface__` descr list, the safety
 * checks `_view_is_safe` and `_getfield_is_safe`, and the byte-order rule
 * of `_commastring`.
 */
module DescrProtocol {
  import opened Wrappers
  import opened DescrMath

  type Meta = seq<(string, string)>

  /** A dtype: a plain type (its typestring `str` carries its size), a
      sub-array of a base dtype, or a structure of fields at offsets. */
  datatype DType =
    | Plain(str: string, size: nat, isObject: bool, metadata: Option<Meta>)
    | SubArray(base: DType, shape: seq<nat>)
    | Struct(fields: seq<FieldOf>, itemsize: nat)

  datatype FieldOf = FieldOf(name: string, title: Option<string>, dtype: DType, offset: nat)

  function ItemSize(d: DType): nat {
    match d
    case Plain(_, size, _, _) => size
    case SubArray(base, shape) => ItemSize(base) * Product(shape)
    case Struct(_, itemsize) => itemsize
  }

  /** `dtype.hasobject`. */
  predicate HasObject(d: DType) {
    match d
    case Plain(_, _, isObject, _) => isObject
    case SubArray(base, _) => HasObject(base)
    case Struct(fields, _) => exists i :: 0 <= i < |fields| && HasObject(fields[i].dtype)
  }

  // ---------------------------------------------------------------------
  // _array_descr

  /** An entry of the descr list. */
  datatype Descr =
    | Typestr(str: string, size: nat)
    | WithMeta(str: string, size: nat, meta: Meta)
    | SubDescr(base: Descr, shape: seq<nat>)
    | FieldList(entries: seq<Entry>)

  /** `('', '|V<n>')`, or a field with an optional title and an optional
      sub-array shape. */
  datatype Entry =
    | Padding(n: nat)
    | Named(name: string, title: Option<string>, descr: Descr, shape: Option<seq<nat>>)

  function FieldEntry(f: FieldOf, descr: Descr): Entry {
    if f.dtype.SubArray? then Named(f.name, f.title, descr, Some(f.dtype.shape))
    else Named(f.name, f.title, descr, None)
  }

  /** The description written for the dtype a field holds: a sub-array
      field is described by its base. */
  function FieldDescr(f: FieldOf): Descr
    decreases f, 0
  {
    if f.dtype.SubArray? then ArrayDescr(f.dtype.base) else ArrayDescr(f.dtype)
  }

  function ArrayDescr(d: DType): (r: Descr)
    decreases d, 1
    ensures d.Struct? <==> r.FieldList?
    ensures d.SubArray? <==> r.SubDescr?
    // metadata is kept exactly when there is some
    ensures d.Plain? ==> (r.WithMeta? <==> d.metadata.Some? && d.metadata.value != [])
  {
    match d
    case Plain(str, size, _, metadata) =>
      if metadata.None? || metadata.value == [] then Typestr(str, size)
      else WithMeta(str, size, metadata.value)
    case SubArray(base, shape) => SubDescr(ArrayDescr(base), shape)
    case Struct(fields, itemsize) =>
      var parts := seq(|fields|, i requires 0 <= i < |fields| => FieldEntry(fields[i], FieldDescr(fields[i])));
      var body := Layout(fields, parts, 0);
      var end := EndOffset(fields, 0);
      FieldList(if itemsize > end then body + [Padding(itemsize - end)] else body)
  }

  /** The fields in order, each preceded by padding when it starts past
      the running offset. */
  function Layout(fields: seq<FieldOf>, parts: seq<Entry>, offset: nat): seq<Entry>
    requires |parts| == |fields|
  {
    if fields == [] then []
    else
      var f := fields[0];
      var pad := if f.offset > offset then [Padding(f.offset - offset)] else [];
      pad + ([parts[0]] + Layout(fields[1..], parts[1..], Max(offset, f.offset) + ItemSize(f.dtype)))
  }

  function Max(a: nat, b: nat): nat {
    if a >= b then a else b
  }

  /** The running offset after the last field. */
  function EndOffset(fields: seq<FieldOf>, offset: nat): nat {
    if fields == [] then offset
    else EndOffset(fields[1..], Max(offset, fields[0].offset) + ItemSize(fields[0].dtype))
  }

  // ---------------------------------------------------------------------
  // reading a descr list back

  function DescrSize(d: Descr): nat {
    match d
    case Typestr(_, size) => size
    case WithMeta(_, size, _) => size
    case SubDescr(base, shape) => DescrSize(base) * Product(shape)
    case FieldList(entries) => EntriesSize(entries)
  }

  function EntrySize(e: Entry): nat {
    match e
    case Padding(n) => n
    case Named(_, _, descr, shape) => DescrSize(descr) * (if shape.Some? then Product(shape.value) else 1)
  }

  function EntriesSize(es: seq<Entry>): nat
    decreases es
  {
    if es == [] then 0 else EntrySize(es[0]) + EntriesSize(es[1..])
  }

  /** The names of a descr list with the offset each one is read at. */
  function ReadOffsets(es: seq<Entry>, pos: nat): seq<(string, nat)> {
    if es == [] then []
    else
      var rest := ReadOffsets(es[1..], pos + EntrySize(es[0]));
      if es[0].Named? then [(es[0].name, pos)] + rest else rest
  }

  /** Fields in increasing offset that do not overlap, inside the item,
      and the same for every nested dtype. */
  predicate WellLaid(d: DType) {
    match d
    case Plain(_, _, _, _) => true
    case SubArray(base, _) => WellLaid(base)
    case Struct(fields, itemsize) =>
      && Disjoint(fields, 0)
      && EndOffset(fields, 0) <= itemsize
      && forall i :: 0 <= i < |fields| ==> WellLaid(fields[i].dtype)
  }

  /** Each field starts at or after the end of the one before it. */
  predicate Disjoint(fields: seq<FieldOf>, offset: nat) {
    fields == [] || (fields[0].offset >= offset && Disjoint(fields[1..], fields[0].offset + ItemSize(fields[0].dtype)))
  }

  function Placement(fields: seq<FieldOf>): seq<(string, nat)> {
    seq(|fields|, i requires 0 <= i < |fields| => (fields[i].name, fields[i].offset))
  }

  /** The fields of a layout that match its parts name for name and size
      for size. */
  predicate PartsMatch(fields: seq<FieldOf>, parts: seq<Entry>) {
    |parts| == |fields| &&
    forall i :: 0 <= i < |fields| ==>
      parts[i].Named? && parts[i].name == fields[i].name && EntrySize(parts[i]) == ItemSize(fields[i].dtype)
  }

  lemma PartsMatchTail(fields: seq<FieldOf>, parts: seq<Entry>)
    requires PartsMatch(fields, parts) && fields != []
    ensures PartsMatch(fields[1..], parts[1..])
  {
    forall i | 0 <= i < |fields| - 1
      ensures parts[1..][i].Named? && parts[1..][i].name == fields[1..][i].name
      ensures EntrySize(parts[1..][i]) == ItemSize(fields[1..][i].dtype)
    {
      assert parts[1..][i] == parts[i + 1] && fields[1..][i] == fields[i + 1];
    }
  }

  /** One field of the layout: its padding, its entry, and the rest. */
  lemma LayoutUnfold(fields: seq<FieldOf>, parts: seq<Entry>, offset: nat)
    requires PartsMatch(fields, parts) && fields != [] && Disjoint(fields, offset)
    ensures var f := fields[0];
            var pad: seq<Entry> := if f.offset > offset then [Padding(f.offset - offset)] else [];
            && PartsMatch(fields[1..], parts[1..])
            && Disjoint(fields[1..], f.offset + ItemSize(f.dtype))
            && Layout(fields, parts, offset) == pad + ([parts[0]] + Layout(fields[1..], parts[1..], f.offset + ItemSize(f.dtype)))
            && EndOffset(fields, offset) == EndOffset(fields[1..], f.offset + ItemSize(f.dtype))
  {
    assert Max(offset, fields[0].offset) == fields[0].offset;
    PartsMatchTail(fields, parts);
  }

  /** The layout puts every field at its offset. */
  lemma {:induction false} LayoutPlaces(fields: seq<FieldOf>, parts: seq<Entry>, offset: nat)
    requires PartsMatch(fields, parts) && Disjoint(fields, offset)
    ensures ReadOffsets(Layout(fields, parts, offset), offset) == Placement(fields)
  {
    if fields != [] {
      var f := fields[0];
      var next := f.offset + ItemSize(f.dtype);
      var pad: seq<Entry> := if f.offset > offset then [Padding(f.offset - offset)] else [];
      var rest := Layout(fields[1..], parts[1..], next);
      LayoutUnfold(fields, parts, offset);
      LayoutPlaces(fields[1..], parts[1..], next);
      ReadThroughPadding(pad, [parts[0]] + rest, offset);
      assert EntriesSize(pad) == f.offset - offset by {
        if pad != [] {
          assert pad[1..] == [];
        }
      }
      assert ([parts[0]] + rest)[1..] == rest;
      assert Placement(fields) == [(f.name, f.offset)] + Placement(fields[1..]);
    }
  }

  /** The layout ends where the last field ends. */
  lemma {:induction false} LayoutSize(fields: seq<FieldOf>, parts: seq<Entry>, offset: nat)
    requires PartsMatch(fields, parts) && Disjoint(fields, offset)
    ensures EndOffset(fields, offset) >= offset
    ensures EntriesSize(Layout(fields, parts, offset)) == EndOffset(fields, offset) - offset
  {
    if fields != [] {
      var f := fields[0];
      var next := f.offset + ItemSize(f.dtype);
      var pad: seq<Entry> := if f.offset > offset then [Padding(f.offset - offset)] else [];
      var rest := Layout(fields[1..], parts[1..], next);
      LayoutUnfold(fields, parts, offset);
      LayoutSize(fields[1..], parts[1..], next);
      EntriesSizeAppend(pad, [parts[0]] + rest);
      assert ([parts[0]] + rest)[1..] == rest;
      assert EntriesSize(pad) == f.offset - offset by {
        if pad != [] {
          assert pad[1..] == [];
        }
      }
    }
  }

  lemma ReadThroughPadding(pad: seq<Entry>, es: seq<Entry>, pos: nat)
    requires pad == [] || (|pad| == 1 && pad[0].Padding?)
    ensures ReadOffsets(pad + es, pos) == ReadOffsets(es, pos + EntriesSize(pad))
  {
    if pad == [] {
      assert pad + es == es;
    } else {
      assert (pad + es)[1..] == es;
      assert pad[1..] == [];
    }
  }

  lemma {:induction false} EntriesSizeAppend(a: seq<Entry>, b: seq<Entry>)
    ensures EntriesSize(a + b) == EntriesSize(a) + EntriesSize(b)
  {
    if a == [] {
      assert a + b == b;
    } else {
      assert (a + b)[1..] == a[1..] + b;
      EntriesSizeAppend(a[1..], b);
    }
  }

  lemma ReadOffsetsPaddingTail(es: seq<Entry>, n: nat, pos: nat)
    ensures ReadOffsets(es + [Padding(n)], pos) == ReadOffsets(es, pos)
    decreases |es|
  {
    if es == [] {
      assert [Padding(n)][1..] == [];
    } else {
      assert (es + [Padding(n)])[1..] == es[1..] + [Padding(n)];
      ReadOffsetsPaddingTail(es[1..], n, pos + EntrySize(es[0]));
    }
  }

  /** The descr list describes the same item: a reader that advances over
      padding and fields finds every field at its offset, and the list
      spans exactly the itemsize. */
  lemma {:induction false} ArrayDescrRoundTrip(d: DType)
    requires WellLaid(d)
    ensures DescrSize(ArrayDescr(d)) == ItemSize(d)
    ensures d.Struct? ==> ReadOffsets(ArrayDescr(d).entries, 0) == Placement(d.fields)
  {
    match d
    case Plain(_, _, _, _) =>
    case SubArray(base, _) =>
      ArrayDescrRoundTrip(base);
    case Struct(fields, itemsize) =>
      var parts := seq(|fields|, i requires 0 <= i < |fields| => FieldEntry(fields[i], FieldDescr(fields[i])));
      forall i | 0 <= i < |fields|
        ensures parts[i].Named? && parts[i].name == fields[i].name && EntrySize(parts[i]) == ItemSize(fields[i].dtype)
      {
        var f := fields[i];
        if f.dtype.SubArray? {
          ArrayDescrRoundTrip(f.dtype.base);
        } else {
          ArrayDescrRoundTrip(f.dtype);
        }
      }
      LayoutPlaces(fields, parts, 0);
      LayoutSize(fields, parts, 0);
      var body := Layout(fields, parts, 0);
      var end := EndOffset(fields, 0);
      if itemsize > end {
        EntriesSizeAppend(body, [Padding(itemsize - end)]);
        assert EntriesSize([Padding(itemsize - end)]) == itemsize - end by {
          assert [Padding(itemsize - end)][1..] == [];
        }
        ReadOffsetsPaddingTail(body, itemsize - end, 0);
      }
  }

  // ---------------------------------------------------------------------
  // _view_is_safe and _getfield_is_safe

  datatype Unsafe = CannotChangeObjectType | CannotGetObjectField

  /** A view may reinterpret memory unless objects are involved; the same
      type is always fine. */
  function ViewIsSafe(oldType: DType, newType: DType): (r: Outcome<Unsafe>)
    ensures r.Pass? <==> oldType == newType || (!HasObject(oldType) && !HasObject(newType))
    ensures r.Fail? ==> r.error == CannotChangeObjectType
  {
    if oldType == newType then Pass
    else if HasObject(newType) || HasObject(oldType) then Fail(CannotChangeObjectType)
    else Pass
  }

  /** Some field of `d` sits at `offset` with type `t`. */
  predicate FieldAt(d: DType, offset: int, t: DType) {
    d.Struct? && exists i :: 0 <= i < |d.fields| && d.fields[i].offset == offset && d.fields[i].dtype == t
  }

  function FindField(fields: seq<FieldOf>, offset: int, t: DType): (found: bool)
    ensures found <==> exists i :: 0 <= i < |fields| && fields[i].offset == offset && fields[i].dtype == t
  {
    if fields == [] then false
    else if fields[0].offset == offset && fields[0].dtype == t then true
    else
      assert forall i :: 1 <= i < |fields| ==> fields[i] == fields[1..][i - 1];
      FindField(fields[1..], offset, t)
  }

  /** `getfield`: with objects involved only the whole item or one of its
      exact fields may be read. */
  function GetfieldIsSafe(oldType: DType, newType: DType, offset: int): (r: Outcome<Unsafe>)
    ensures r.Pass? <==>
              (!HasObject(oldType) && !HasObject(newType))
              || (offset == 0 && newType == oldType)
              || FieldAt(oldType, offset, newType)
    ensures r.Fail? ==> r.error == CannotGetObjectField
  {
    if HasObject(newType) || HasObject(oldType) then
      if offset == 0 && newType == oldType then Pass
      else if oldType.Struct? && FindField(oldType.fields, offset, newType) then Pass
      else Fail(CannotGetObjectField)
    else Pass
  }

  /** A safe view is a safe read of the whole item. */
  lemma ViewImpliesGetfield(oldType: DType, newType: DType)
    requires ViewIsSafe(oldType, newType).Pass?
    ensures GetfieldIsSafe(oldType, newType, 0).Pass?
  {
  }

  // ---------------------------------------------------------------------
  // _commastring: the byte order of one item

  datatype OrderError = InconsistentByteOrder

  /** A byte-order mark the format grammar accepts: none, or one of
      `<`, `>`, `|`, `=`. */
  predicate Mark(s: string) {
    s in {"", "<", ">", "|", "="}
  }

  /** `=` stands for the native order; other marks stand for themselves. */
  function Converted(mark: string, native: string): string {
    if mark == "=" then native else mark
  }

  /** The two optional marks around the repeat count must agree; the marks
      that mean "native" or "not applicable" become an empty prefix. */
  function ByteOrder(order1: string, order2: string, native: string): (r: Result<string, OrderError>)
    requires native in {"<", ">"}
    ensures r.Err? <==> order1 != "" && order2 != "" && Converted(order1, native) != Converted(order2, native)
    // the prefix is empty or the non-native order
    ensures r.Ok? && Mark(order1) && Mark(order2) ==> r.value in {"", if native == "<" then ">" else "<"}
    ensures r.Ok? && r.value != "" ==> r.value == order1 || r.value == order2
  {
    var order :-
      if order2 == "" then Ok(order1)
      else if order1 == "" then Ok(order2)
      else if Converted(order1, native) != Converted(order2, native) then Err(InconsistentByteOrder)
      else Ok(Converted(order1, native));
    if order in {"|", "=", native} then Ok("") else Ok(order)
  }

  /** The two marks play the same part. */
  lemma ByteOrderSymmetric(order1: string, order2: string, native: string)
    requires native in {"<", ">"}
    ensures ByteOrder(order1, order2, native) == ByteOrder(order2, order1, native)
  {
  }
}
