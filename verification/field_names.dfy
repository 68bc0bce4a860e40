/**
 * The field-name helpers of `numpy/core/_internal.py`: `_newnames`, which
 * reorders the fields of a structured dtype for sorting, and
 * `_makenames_list`, which turns a `{name: (format, offset[, title])}`
 * dictionary into field lists sorted by offset.
 */
module FieldNames {
  import opened Wrappers

  type Name = string

  predicate Distinct<T(==)>(xs: seq<T>) {
    forall i, j :: 0 <= i < j < |xs| ==> xs[i] != xs[j]
  }

  // ---------------------------------------------------------------------
  // _newnames

  /** The `order` argument: one name, a list or tuple of names, or any
      other object. */
  datatype Order = OneName(name: Name) | Names(names: seq<Name>) | OtherOrder

  datatype NamesError = UnknownFieldName(name: Name) | UnsupportedOrder

  /** `list.remove`: drops the first occurrence. */
  function RemoveFirst(xs: seq<Name>, x: Name): (r: seq<Name>)
    requires x in xs
    ensures multiset(r) == multiset(xs) - multiset{x}
    ensures |r| == |xs| - 1
  {
    if xs[0] == x then
      assert xs == [xs[0]] + xs[1..];
      xs[1..]
    else
      assert xs == [xs[0]] + xs[1..];
      [xs[0]] + RemoveFirst(xs[1..], x)
  }

  /** The names of `xs` that are not in `gone`, in their order. */
  function Without(xs: seq<Name>, gone: seq<Name>): (r: seq<Name>)
    ensures forall x :: x in r <==> x in xs && x !in gone
  {
    if xs == [] then []
    else if xs[0] in gone then Without(xs[1..], gone)
    else [xs[0]] + Without(xs[1..], gone)
  }

  /** The names left after removing every name of `order` in turn, or the
      first one that is missing. */
  function RemoveEach(names: seq<Name>, order: seq<Name>): (r: Result<seq<Name>, NamesError>)
    decreases |order|
  {
    if order == [] then Ok(names)
    else if order[0] !in names then Err(UnknownFieldName(order[0]))
    else RemoveEach(RemoveFirst(names, order[0]), order[1..])
  }

  /** `_newnames(datatype, order)`. */
  function NewNames(oldNames: seq<Name>, order: Order): (r: Result<seq<Name>, NamesError>)
  {
    match order
    case OneName(n) => Reordered(oldNames, [n])
    case Names(ns) => Reordered(oldNames, ns)
    case OtherOrder => Err(UnsupportedOrder)
  }

  function Reordered(oldNames: seq<Name>, order: seq<Name>): (r: Result<seq<Name>, NamesError>) {
    var rest :- RemoveEach(oldNames, order);
    Ok(order + rest)
  }

  /** Removing the names succeeds exactly when `order` asks for no name
      more often than `names` holds it, and leaves the difference. */
  lemma {:induction false} RemoveEachSpec(names: seq<Name>, order: seq<Name>)
    ensures RemoveEach(names, order).Ok? <==> multiset(order) <= multiset(names)
    ensures RemoveEach(names, order).Ok? ==>
              multiset(RemoveEach(names, order).value) == multiset(names) - multiset(order)
    ensures RemoveEach(names, order).Err? ==>
              exists n :: RemoveEach(names, order).error == UnknownFieldName(n) && n in order
    decreases |order|
  {
    if order != [] {
      var x := order[0];
      assert order == [x] + order[1..];
      if x in names {
        var smaller := RemoveFirst(names, x);
        RemoveEachSpec(smaller, order[1..]);
        assert multiset(order[1..]) <= multiset(smaller) <==> multiset(order) <= multiset(names);
      } else {
        assert multiset(names)[x] == 0;
      }
    }
  }

  /** The requested names come first, the whole is a permutation of the
      old names, and a name is unknown only if it is asked for more often
      than the dtype has it. */
  lemma NewNamesPermutes(oldNames: seq<Name>, order: Order)
    ensures order.OtherOrder? ==> NewNames(oldNames, order) == Err(UnsupportedOrder)
    ensures !order.OtherOrder? ==>
              var asked := if order.OneName? then [order.name] else order.names;
              && (NewNames(oldNames, order).Ok? <==> multiset(asked) <= multiset(oldNames))
              && (NewNames(oldNames, order).Ok? ==>
                    var r := NewNames(oldNames, order).value;
                    r[..|asked|] == asked && multiset(r) == multiset(oldNames))
  {
    if !order.OtherOrder? {
      var asked := if order.OneName? then [order.name] else order.names;
      RemoveEachSpec(oldNames, asked);
      if RemoveEach(oldNames, asked).Ok? {
        var rest := RemoveEach(oldNames, asked).value;
        assert (asked + rest)[..|asked|] == asked;
      }
    }
  }

  /** With distinct field names (as a dtype has), the names that were not
      asked for keep their original order after the requested ones. */
  lemma {:induction false} RemoveEachKeepsOrder(names: seq<Name>, order: seq<Name>)
    requires Distinct(names) && Distinct(order)
    requires RemoveEach(names, order).Ok?
    ensures RemoveEach(names, order).value == Without(names, order)
    decreases |order|
  {
    if order == [] {
      WithoutNothing(names);
    } else {
      var x := order[0];
      var smaller := RemoveFirst(names, x);
      RemoveFirstDistinct(names, x);
      assert Distinct(order[1..]);
      RemoveEachKeepsOrder(smaller, order[1..]);
      WithoutStep(names, x, order[1..]);
      assert order == [x] + order[1..];
    }
  }

  lemma {:induction false} WithoutNothing(xs: seq<Name>)
    ensures Without(xs, []) == xs
  {
    if xs != [] {
      WithoutNothing(xs[1..]);
    }
  }

  /** In a list without repeats, dropping the first `x` is the list
      without `x`. */
  lemma {:induction false} RemoveFirstDistinct(xs: seq<Name>, x: Name)
    requires Distinct(xs) && x in xs
    ensures Distinct(RemoveFirst(xs, x))
    ensures forall y :: y in RemoveFirst(xs, x) <==> y in xs && y != x
  {
    var r := RemoveFirst(xs, x);
    assert xs == [xs[0]] + xs[1..];
    assert Distinct(xs[1..]);
    assert xs[0] !in xs[1..];
    if xs[0] != x {
      var tail := RemoveFirst(xs[1..], x);
      RemoveFirstDistinct(xs[1..], x);
      assert r == [xs[0]] + tail;
      assert xs[0] !in tail;
      forall i, j | 0 <= i < j < |r| ensures r[i] != r[j] {
        if i > 0 {
          assert r[i] == tail[i - 1] && r[j] == tail[j - 1];
        } else {
          assert r[j] == tail[j - 1];
        }
      }
    }
  }

  lemma {:induction false} DistinctCount(xs: seq<Name>, x: Name)
    requires Distinct(xs) && x in xs
    ensures multiset(xs)[x] == 1
  {
    assert xs == [xs[0]] + xs[1..];
    if xs[0] == x {
      assert x !in xs[1..];
    } else {
      DistinctCount(xs[1..], x);
    }
  }

  lemma {:induction false} WithoutStep(names: seq<Name>, x: Name, rest: seq<Name>)
    requires Distinct(names) && x in names && x !in rest
    ensures Without(RemoveFirst(names, x), rest) == Without(names, [x] + rest)
  {
    assert names == [names[0]] + names[1..];
    if names[0] == x {
      assert x !in names[1..];
      WithoutAbsent(names[1..], x, rest);
    } else {
      WithoutStep(names[1..], x, rest);
    }
  }

  lemma {:induction false} WithoutAbsent(xs: seq<Name>, x: Name, rest: seq<Name>)
    requires x !in xs
    ensures Without(xs, rest) == Without(xs, [x] + rest)
  {
    if xs != [] {
      WithoutAbsent(xs[1..], x, rest);
    }
  }

  /** `_newnames` with distinct requested names: exactly the requested
      names, then the others in their order. */
  lemma NewNamesOrder(oldNames: seq<Name>, asked: seq<Name>)
    requires Distinct(oldNames) && Distinct(asked)
    requires NewNames(oldNames, Names(asked)).Ok?
    ensures NewNames(oldNames, Names(asked)).value == asked + Without(oldNames, asked)
  {
    RemoveEachKeepsOrder(oldNames, asked);
  }

  // ---------------------------------------------------------------------
  // _makenames_list

  type FormatId = nat

  /** One value of the fields dictionary. `sized` says whether `len(obj)`
      works at all; `isTuple` and `arity` are what `isinstance(obj, tuple)`
      and `len(obj)` see; `title` is only read when there is a third entry.
      `offsetConverts` says whether `int(obj[1])` returns, and `offset` is
      the integer it returns: a float is truncated toward zero first, so an
      offset of -0.5 reads as 0 and passes. `formatValid` says whether
      `dtype(obj[0], align=align)` returns, for the `align` of the call. */
  datatype Entry = Entry(sized: bool, isTuple: bool, arity: nat, format: FormatId,
                         offsetConverts: bool, offset: int, formatValid: bool, title: Name)

  datatype Field = Field(name: Name, format: FormatId, offset: nat, title: Option<Name>)

  /** `len()` of an unsized value raises TypeError before the tuple check;
      `NotATuple` and `InvalidOffset` are the ValueErrors of the source;
      `OffsetNotInt` is what `int()` raises and `InvalidFormat` what
      `dtype()` raises. */
  datatype FieldsError = Unsized | NotATuple | OffsetNotInt | InvalidOffset | InvalidFormat

  /** An entry whose title repeats its name is the title's own alias and is
      skipped. */
  predicate IsAlias(name: Name, e: Entry) {
    e.arity > 2 && e.title == name
  }

  predicate EntryValid(name: Name, e: Entry) {
    && e.sized && e.isTuple && e.arity in {2, 3}
    && (IsAlias(name, e) || (e.offsetConverts && e.offset >= 0 && e.formatValid))
  }

  /** What a bad entry raises: the checks go `len`, the tuple test, `int`,
      the sign of the offset, `dtype`. */
  function EntryError(name: Name, e: Entry): FieldsError
    requires !EntryValid(name, e)
  {
    if !e.sized then Unsized
    else if !e.isTuple || e.arity !in {2, 3} then NotATuple
    else if !e.offsetConverts then OffsetNotInt
    else if e.offset < 0 then InvalidOffset
    else InvalidFormat
  }

  /** Entry `i` is the first bad one. */
  predicate FirstInvalid(entries: seq<(Name, Entry)>, i: int) {
    && 0 <= i < |entries| && !EntryValid(entries[i].0, entries[i].1)
    && forall j :: 0 <= j < i ==> EntryValid(entries[j].0, entries[j].1)
  }

  /** The field an entry describes; the title is kept only when given. */
  function Converted(name: Name, e: Entry): Field
    requires e.offset >= 0
  {
    Field(name, e.format, e.offset, if e.arity > 2 then Some(e.title) else None)
  }

  /** The entries in dictionary order turned into fields, aliases
      skipped; the first bad entry decides the error. */
  function CollectFields(entries: seq<(Name, Entry)>): (r: Result<seq<Field>, FieldsError>)
    ensures r.Ok? <==> forall i :: 0 <= i < |entries| ==> EntryValid(entries[i].0, entries[i].1)
    ensures r == Err(Unsized) ==> exists i :: 0 <= i < |entries| && !entries[i].1.sized
    ensures r == Err(NotATuple) ==>
              exists i :: 0 <= i < |entries| && !(entries[i].1.isTuple && entries[i].1.arity in {2, 3})
    // the first entry is looked at first: without `len()` it raises TypeError
    ensures entries != [] && !entries[0].1.sized ==> r == Err(Unsized)
    ensures r == Err(OffsetNotInt) ==>
              exists i :: 0 <= i < |entries| && !entries[i].1.offsetConverts && !IsAlias(entries[i].0, entries[i].1)
    ensures r == Err(InvalidOffset) ==>
              exists i :: 0 <= i < |entries| && entries[i].1.offset < 0 && !IsAlias(entries[i].0, entries[i].1)
    ensures r == Err(InvalidFormat) ==>
              exists i :: 0 <= i < |entries| && !entries[i].1.formatValid && !IsAlias(entries[i].0, entries[i].1)
    // every entry that is not an alias becomes a field, and nothing else does
    ensures r.Ok? ==> forall i :: 0 <= i < |entries| && !IsAlias(entries[i].0, entries[i].1) ==>
              Converted(entries[i].0, entries[i].1) in r.value
    ensures r.Ok? ==> forall f :: f in r.value ==>
              exists i :: (0 <= i < |entries| && !IsAlias(entries[i].0, entries[i].1) &&
                           f == Converted(entries[i].0, entries[i].1))
  {
    if entries == [] then Ok([])
    else
      var (name, e) := entries[0];
      var rest := CollectFields(entries[1..]);
      assert forall i :: 1 <= i < |entries| ==> entries[i] == entries[1..][i - 1];
      if !e.sized then Err(Unsized)
      else if !e.isTuple || e.arity !in {2, 3} then Err(NotATuple)
      else if IsAlias(name, e) then rest
      else if !e.offsetConverts then Err(OffsetNotInt)
      else if e.offset < 0 then Err(InvalidOffset)
      else if !e.formatValid then Err(InvalidFormat)
      else if rest.Err? then rest
      else Ok([Converted(name, e)] + rest.value)
  }

  /** The error is the one the first bad entry raises. */
  lemma {:induction false} CollectFieldsFirstError(entries: seq<(Name, Entry)>)
    requires CollectFields(entries).Err?
    ensures exists i :: FirstInvalid(entries, i)
              && CollectFields(entries).error == EntryError(entries[i].0, entries[i].1)
  {
    var (name, e) := entries[0];
    if EntryValid(name, e) {
      var rest := entries[1..];
      CollectFieldsFirstError(rest);
      var i :| FirstInvalid(rest, i) && CollectFields(rest).error == EntryError(rest[i].0, rest[i].1);
      assert FirstInvalid(entries, i + 1) by {
        forall j | 0 <= j < i + 1 ensures EntryValid(entries[j].0, entries[j].1) {
          if j > 0 { assert entries[j] == rest[j - 1]; }
        }
      }
      assert entries[i + 1] == rest[i];
    } else {
      assert FirstInvalid(entries, 0);
    }
  }

  // ---------------------------------------------------------------------
  // the stable sort by offset (`list.sort(key=...)`)

  predicate SortedByOffset(fs: seq<Field>) {
    forall i, j :: 0 <= i < j < |fs| ==> fs[i].offset <= fs[j].offset
  }

  /** `x` goes after every field whose offset is not larger. */
  function Insert(s: seq<Field>, x: Field): (r: seq<Field>)
    requires SortedByOffset(s)
    ensures SortedByOffset(r)
    ensures multiset(r) == multiset(s) + multiset{x}
    ensures |r| == |s| + 1
  {
    if s == [] then [x]
    else if x.offset < s[0].offset then InsertFront(s, x); [x] + s
    else
      var tail := Insert(s[1..], x);
      InsertBehind(s, x, tail);
      [s[0]] + tail
  }

  lemma InsertFront(s: seq<Field>, x: Field)
    requires SortedByOffset(s) && s != [] && x.offset < s[0].offset
    ensures SortedByOffset([x] + s)
  {
    var r := [x] + s;
    forall i, j | 0 <= i < j < |r| ensures r[i].offset <= r[j].offset {
      if i == 0 {
        assert r[j] == s[j - 1];
      } else {
        assert r[i] == s[i - 1] && r[j] == s[j - 1];
      }
    }
  }

  lemma InsertBehind(s: seq<Field>, x: Field, tail: seq<Field>)
    requires SortedByOffset(s) && s != [] && x.offset >= s[0].offset
    requires SortedByOffset(tail) && multiset(tail) == multiset(s[1..]) + multiset{x}
    ensures SortedByOffset([s[0]] + tail)
    ensures multiset([s[0]] + tail) == multiset(s) + multiset{x}
  {
    assert s == [s[0]] + s[1..];
    var r := [s[0]] + tail;
    forall k | 0 <= k < |tail| ensures s[0].offset <= tail[k].offset {
      assert tail[k] in multiset(tail);
      if tail[k] != x {
        assert tail[k] in multiset(s[1..]);
        var m :| 0 <= m < |s[1..]| && s[1..][m] == tail[k];
        assert s[1..][m] == s[m + 1];
      }
    }
    forall i, j | 0 <= i < j < |r| ensures r[i].offset <= r[j].offset {
      if i == 0 {
        assert r[j] == tail[j - 1];
      } else {
        assert r[i] == tail[i - 1] && r[j] == tail[j - 1];
      }
    }
  }

  function SortByOffset(fs: seq<Field>): (r: seq<Field>)
    ensures SortedByOffset(r)
    ensures multiset(r) == multiset(fs)
  {
    if fs == [] then []
    else
      assert fs == fs[..|fs| - 1] + [fs[|fs| - 1]];
      Insert(SortByOffset(fs[..|fs| - 1]), fs[|fs| - 1])
  }

  /** The fields at one offset, in order. */
  function AtOffset(fs: seq<Field>, o: nat): seq<Field> {
    if fs == [] then []
    else (if fs[0].offset == o then [fs[0]] else []) + AtOffset(fs[1..], o)
  }

  lemma {:induction false} AtOffsetAppend(a: seq<Field>, b: seq<Field>, o: nat)
    ensures AtOffset(a + b, o) == AtOffset(a, o) + AtOffset(b, o)
  {
    if a == [] {
      assert a + b == b;
    } else {
      assert (a + b)[1..] == a[1..] + b;
      AtOffsetAppend(a[1..], b, o);
    }
  }

  lemma {:induction false} AtOffsetAbove(s: seq<Field>, o: nat)
    requires forall k :: 0 <= k < |s| ==> s[k].offset > o
    ensures AtOffset(s, o) == []
  {
    if s != [] {
      AtOffsetAbove(s[1..], o);
    }
  }

  lemma {:induction false} InsertStable(s: seq<Field>, x: Field, o: nat)
    requires SortedByOffset(s)
    ensures AtOffset(Insert(s, x), o) == AtOffset(s, o) + (if x.offset == o then [x] else [])
  {
    if s == [] {
    } else if x.offset < s[0].offset {
      assert ([x] + s)[1..] == s;
      if x.offset == o {
        AtOffsetAbove(s, o);
      }
    } else {
      var tail := Insert(s[1..], x);
      assert ([s[0]] + tail)[1..] == tail;
      InsertStable(s[1..], x, o);
    }
  }

  /** The sort is stable: fields sharing an offset keep their order. */
  lemma {:induction false} SortStable(fs: seq<Field>, o: nat)
    ensures AtOffset(SortByOffset(fs), o) == AtOffset(fs, o)
  {
    if fs != [] {
      var init, last := fs[..|fs| - 1], fs[|fs| - 1];
      var sortedInit := SortByOffset(init);
      var tail := if last.offset == o then [last] else [];
      calc {
        AtOffset(SortByOffset(fs), o);
        AtOffset(Insert(sortedInit, last), o);
        { InsertStable(sortedInit, last, o); }
        AtOffset(sortedInit, o) + tail;
        { SortStable(init, o); }
        AtOffset(init, o) + tail;
        { LastAtOffset(init, last, o); }
        AtOffset(init + [last], o);
        { assert fs == init + [last]; }
        AtOffset(fs, o);
      }
    }
  }

  lemma LastAtOffset(init: seq<Field>, last: Field, o: nat)
    ensures AtOffset(init + [last], o) == AtOffset(init, o) + (if last.offset == o then [last] else [])
  {
    AtOffsetAppend(init, [last], o);
    assert [last][1..] == [];
  }

  /** `_makenames_list`: the fields sorted by offset, or the first error. */
  function MakeNamesList(entries: seq<(Name, Entry)>): (r: Result<seq<Field>, FieldsError>)
    ensures r.Ok? <==> forall i :: 0 <= i < |entries| ==> EntryValid(entries[i].0, entries[i].1)
    ensures r.Ok? ==> SortedByOffset(r.value)
    ensures r.Ok? ==> forall i :: 0 <= i < |entries| && !IsAlias(entries[i].0, entries[i].1) ==>
              Converted(entries[i].0, entries[i].1) in r.value
    ensures r.Ok? ==> forall f :: f in r.value ==>
              exists i :: (0 <= i < |entries| && !IsAlias(entries[i].0, entries[i].1) &&
                           f == Converted(entries[i].0, entries[i].1))
    ensures r.Err? ==> exists i :: FirstInvalid(entries, i) && r.error == EntryError(entries[i].0, entries[i].1)
  {
    if CollectFields(entries).Err? then
      CollectFieldsFirstError(entries);
      Err(CollectFields(entries).error)
    else
      var fields := CollectFields(entries).value;
      var sorted := SortByOffset(fields);
      assert forall f :: f in sorted <==> f in fields by {
        forall f ensures f in sorted <==> f in fields {
          assert f in sorted <==> f in multiset(sorted);
          assert f in fields <==> f in multiset(fields);
        }
      }
      Ok(sorted)
  }

  /** Fields that share an offset come out in dictionary order. */
  lemma MakeNamesListStable(entries: seq<(Name, Entry)>, o: nat)
    requires MakeNamesList(entries).Ok?
    ensures AtOffset(MakeNamesList(entries).value, o) == AtOffset(CollectFields(entries).value, o)
  {
    SortStable(CollectFields(entries).value, o);
  }
}
