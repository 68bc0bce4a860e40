/**
 * The field layout of `__dtype_from_pep3118` in `numpy/core/_internal.py`:
 * how the items of a PEP 3118 buffer format are placed one after the
 * other, with native (`@`) alignment, generated `f<n>` names and the
 * duplicate-name check. The characters of the format are taken as
 * already parsed into `Item`s.
 */
module Pep3118 {
  import opened Wrappers
  import opened DescrMath

  /** One parsed item of the format. The byte order is shared state of the
      parse: it stays in force until another order character, and a nested
      `T{...}` that sets one changes it for the enclosing format too. The
      struct itself is placed under the order its own parse ends with, so a
      caller that flattens it into one `Item` gives that order as the item's
      own `order` (and `None` when the struct sets none); the items after it
      then read it as well. */
  datatype Item = Item(
    order: Option<char>,        // a byte-order character before the item
    repeat: nat,                // the item-size prefix, 1 when absent
    size: nat,                  // the itemsize of the element type
    align: nat,                 // its alignment
    isPadding: bool,            // the `x` type character
    shape: Option<seq<nat>>,    // a `(...)` sub-array prefix
    name: Option<string>)       // an explicit `:name:`

  /** A field as the layout records it; `native` says whether `@` alignment
      applied to it. */
  datatype Placed = Placed(name: string, offset: nat, size: nat, align: nat, native: bool)

  datatype Laid = Laid(fields: seq<Placed>, end: nat, commonAlignment: nat)

  datatype Pep3118Error = DuplicateFieldName(name: string)

  // ---------------------------------------------------------------------
  // generated names

  function Digit(d: nat): char
    requires d < 10
  {
    ('0' as int + d) as char
  }

  /** `'%d' % n`. */
  function Decimal(n: nat): (s: string)
    ensures |s| >= 1 && (|s| == 1 <==> n < 10)
  {
    if n < 10 then [Digit(n)] else Decimal(n / 10) + [Digit(n % 10)]
  }

  /** Different numbers are written differently. */
  lemma {:induction false} DecimalInjective(a: nat, b: nat)
    requires Decimal(a) == Decimal(b)
    ensures a == b
  {
    if a >= 10 && b >= 10 {
      var da, db := Decimal(a), Decimal(b);
      assert da[|da| - 1] == db[|db| - 1];
      assert da[..|da| - 1] == Decimal(a / 10) && db[..|db| - 1] == Decimal(b / 10);
      DecimalInjective(a / 10, b / 10);
    }
  }

  /** The generated field name `f<n>`. */
  function FieldName(n: nat): string {
    "f" + Decimal(n)
  }

  lemma FieldNameInjective(a: nat, b: nat)
    requires FieldName(a) == FieldName(b)
    ensures a == b
  {
    assert Decimal(a) == FieldName(a)[1..] && Decimal(b) == FieldName(b)[1..];
    DecimalInjective(a, b);
  }

  function Names(fields: seq<Placed>): (r: seq<string>)
    ensures |r| == |fields| && forall i :: 0 <= i < |fields| ==> r[i] == fields[i].name
  {
    if fields == [] then [] else [fields[0].name] + Names(fields[1..])
  }

  /** `get_dummy_name`: the first `f<n>` from index `idx` on that is not
      taken; the index advances past the taken ones. */
  method DummyName(taken: seq<string>, idx: nat) returns (name: string, next: nat)
    ensures name == FieldName(next) && name !in taken && next >= idx
    ensures forall j :: idx <= j < next ==> FieldName(j) in taken
  {
    next := idx;
    ghost var tried: set<string> := {};
    while FieldName(next) in taken
      invariant next >= idx
      invariant forall j :: idx <= j < next ==> FieldName(j) in taken
      invariant tried <= set x | x in taken
      invariant tried == set j | idx <= j < next :: FieldName(j)
      invariant |tried| == next - idx
      decreases |set x | x in taken| - |tried|
    {
      assert FieldName(next) !in tried by {
        if FieldName(next) in tried {
          var j :| idx <= j < next && FieldName(j) == FieldName(next);
          FieldNameInjective(j, next);
        }
      }
      CardinalityBound(tried + {FieldName(next)}, set x | x in taken);
      tried := tried + {FieldName(next)};
      next := next + 1;
    }
    name := FieldName(next);
  }

  lemma CardinalityBound(a: set<string>, b: set<string>)
    requires a <= b
    ensures |a| <= |b|
  {
    if a != {} {
      var x :| x in a;
      CardinalityBound(a - {x}, b - {x});
    }
  }

  // ---------------------------------------------------------------------
  // alignment

  /** `(-offset) % align` moves `offset` to the next multiple of `align`. */
  lemma StartPadding(offset: nat, align: nat)
    requires align > 0
    ensures 0 <= (-(offset as int)) % align < align
    ensures Divides(align, offset + (-(offset as int)) % align)
  {
    var q := (-(offset as int)) / align;
    assert -(offset as int) == align * q + (-(offset as int)) % align;
    assert offset + (-(offset as int)) % align == align * (-q);
    MultipleMod(align, -q);
  }

  lemma DividesTransitive(a: nat, b: nat, c: nat)
    requires Divides(a, b) && Divides(b, c)
    ensures Divides(a, c)
  {
    var k1, k2 := b / a, c / b;
    assert b == a * k1;
    assert c == b * k2;
    assert c == a * (k1 * k2);
    MultipleMod(a, k1 * k2);
  }

  /** Where an item goes and how much room it takes: under native
      alignment it starts at the next multiple of its alignment, and the
      padding that rounds its size up is either made part of it (when it
      repeats) or added after it. */
  datatype Step = Step(at: nat, size: nat, extra: nat)

  function Advance(it: Item, offset: nat, native: bool): (r: Step)
    requires it.align > 0
    ensures r.at >= offset
    ensures native ==> Divides(it.align, r.at) && r.at < offset + it.align
    ensures !native ==> r.at == offset && r.extra == 0
    ensures r.extra < it.align
  {
    var at: nat := if native then StartPadding(offset, it.align); offset + (-(offset as int)) % it.align else offset;
    var intra := if native then (-(it.size as int)) % it.align else 0;
    var grows := it.repeat > 1 || (it.shape.Some? && Product(it.shape.value) > 1);
    var elemSize := if intra != 0 && grows then it.size + intra else it.size;
    var extra := if intra != 0 && !grows then intra else 0;
    var repeated := if it.repeat != 1 then elemSize * it.repeat else elemSize;
    var total := if it.shape.Some? then repeated * Product(it.shape.value) else repeated;
    Step(at, total, extra)
  }

  /** Items that leave a field: all but the unnamed padding. */
  predicate LeavesField(it: Item) {
    !it.isPadding || it.name.Some?
  }

  function KeptCount(items: seq<Item>): (n: nat)
    ensures n <= |items|
  {
    if items == [] then 0
    else KeptCount(items[..|items| - 1]) + (if LeavesField(items[|items| - 1]) then 1 else 0)
  }

  predicate Disjoint(fields: seq<Placed>) {
    forall i, j :: 0 <= i < j < |fields| ==> fields[i].offset + fields[i].size <= fields[j].offset
  }

  predicate DistinctNames(fields: seq<Placed>) {
    forall i, j :: 0 <= i < j < |fields| ==> fields[i].name != fields[j].name
  }

  /** Every natively aligned field's alignment divides `common`. */
  predicate AlignedIn(fields: seq<Placed>, common: nat) {
    forall i :: 0 <= i < |fields| && fields[i].native ==>
      Divides(fields[i].align, fields[i].offset) && Divides(fields[i].align, common)
  }

  lemma AlignedWiden(fields: seq<Placed>, common: nat, wider: nat)
    requires AlignedIn(fields, common) && Divides(common, wider)
    ensures AlignedIn(fields, wider)
  {
    forall i | 0 <= i < |fields| && fields[i].native ensures Divides(fields[i].align, wider) {
      DividesTransitive(fields[i].align, common, wider);
    }
  }

  /** A field placed at or past the end of all others, with a new name. */
  lemma Appended(fields: seq<Placed>, p: Placed, offset: nat)
    requires Disjoint(fields) && DistinctNames(fields)
    requires forall i :: 0 <= i < |fields| ==> fields[i].offset + fields[i].size <= offset
    requires p.offset >= offset && p.name !in Names(fields)
    ensures Disjoint(fields + [p]) && DistinctNames(fields + [p])
  {
    var all := fields + [p];
    forall i, j | 0 <= i < j < |all|
      ensures all[i].offset + all[i].size <= all[j].offset && all[i].name != all[j].name
    {
      assert all[i] == fields[i];
      if j == |fields| {
        assert all[j] == p;
        assert Names(fields)[i] == fields[i].name;
      } else {
        assert all[j] == fields[j];
      }
    }
  }

  // ---------------------------------------------------------------------
  // the layout, item by item

  predicate Aligned(items: seq<Item>) {
    forall i :: 0 <= i < |items| ==> items[i].align > 0
  }

  /** The byte order in force after the items: `@` until an item sets one,
      with `!` read as `>`. */
  function OrderAfter(items: seq<Item>): char {
    if items == [] then '@'
    else
      var o := items[|items| - 1].order;
      if o.Some? then (if o.value == '!' then '>' else o.value)
      else OrderAfter(items[..|items| - 1])
  }

  /** The offset at which the items end. */
  function EndOf(items: seq<Item>): nat
    requires Aligned(items)
  {
    if items == [] then 0
    else
      var n := |items| - 1;
      var s := Advance(items[n], EndOf(items[..n]), OrderAfter(items) == '@');
      s.at + s.size + s.extra
  }

  /** Where item `i` goes: after the items before it, aligned when the byte
      order it is read under is `@`. */
  function StepAt(items: seq<Item>, i: nat): Step
    requires Aligned(items) && i < |items|
  {
    Advance(items[i], EndOf(items[..i]), OrderAfter(items[..i + 1]) == '@')
  }

  ghost predicate IsGenerated(name: string) {
    exists n: nat :: name == FieldName(n)
  }

  /** Field `f` is the one item `i` leaves: at its place, of its size, under
      its name when it has one and under a generated `f<n>` otherwise. */
  ghost predicate PlacedFrom(f: Placed, items: seq<Item>, i: nat) {
    && Aligned(items) && i < |items|
    && var s := StepAt(items, i);
    && f.offset == s.at && f.size == s.size && f.align == items[i].align
    && f.native == (OrderAfter(items[..i + 1]) == '@')
    && (items[i].name.Some? ==> f.name == items[i].name.value)
    && (items[i].name.None? ==> IsGenerated(f.name))
  }

  /** `name` is the explicit name of a field-leaving item that an earlier
      field-leaving item already has, explicitly or as a generated name. */
  ghost predicate Clash(items: seq<Item>, name: string) {
    exists i, j :: 0 <= i < j < |items| && LeavesField(items[i]) && LeavesField(items[j])
      && items[j].name == Some(name)
      && (items[i].name == Some(name) || (items[i].name.None? && IsGenerated(name)))
  }

  /** Two field-leaving items with the same explicit name. */
  ghost predicate ExplicitDuplicate(items: seq<Item>) {
    exists i, j :: 0 <= i < j < |items| && LeavesField(items[i]) && LeavesField(items[j])
      && items[i].name.Some? && items[i].name == items[j].name
  }

  /** A field-leaving item counts before every later item. */
  lemma {:induction false} KeptGrows(items: seq<Item>, i: nat, j: nat)
    requires i < j <= |items| && LeavesField(items[i])
    ensures KeptCount(items[..i]) < KeptCount(items[..j])
  {
    var pj := items[..j];
    assert pj[..|pj| - 1] == items[..j - 1];
    if j == i + 1 {
      assert pj[|pj| - 1] == items[i];
    } else {
      KeptGrows(items, i, j - 1);
    }
  }

  /** Once every field-leaving item has its field, and fields have distinct
      names, no explicit name is repeated. */
  lemma NoExplicitDuplicate(items: seq<Item>, fields: seq<Placed>)
    requires Aligned(items) && DistinctNames(fields)
    requires forall i {:trigger KeptCount(items[..i])} :: 0 <= i < |items| && LeavesField(items[i]) ==>
      KeptCount(items[..i]) < |fields| && PlacedFrom(fields[KeptCount(items[..i])], items, i)
    ensures !ExplicitDuplicate(items)
  {
    forall i, j | 0 <= i < j < |items| && LeavesField(items[i]) && LeavesField(items[j]) && items[i].name.Some?
      ensures items[i].name != items[j].name
    {
      KeptGrows(items, i, j);
      var a, b := KeptCount(items[..i]), KeptCount(items[..j]);
      assert fields[a].name != fields[b].name;
    }
  }

  /** One more item: the byte order it sets and the offset it ends at. */
  lemma NextItem(items: seq<Item>, k: nat)
    requires Aligned(items) && k < |items|
    ensures OrderAfter(items[..k + 1]) ==
      (match items[k].order
         case Some(c) => if c == '!' then '>' else c
         case None => OrderAfter(items[..k]))
    ensures EndOf(items[..k + 1]) == StepAt(items, k).at + StepAt(items, k).size + StepAt(items, k).extra
  {
    assert items[..k + 1][..k] == items[..k];
  }

  /** The fields so far are those of the field-leaving items before `k`. */
  ghost predicate FieldsUpTo(items: seq<Item>, k: nat, fields: seq<Placed>) {
    && k <= |items|
    && |fields| == KeptCount(items[..k])
    && forall i {:trigger KeptCount(items[..i])} :: 0 <= i < k && LeavesField(items[i]) ==>
         KeptCount(items[..i]) < |fields| && PlacedFrom(fields[KeptCount(items[..i])], items, i)
  }

  lemma FieldLeft(items: seq<Item>, k: nat, fields: seq<Placed>, p: Placed)
    requires Aligned(items) && k < |items| && LeavesField(items[k])
    requires FieldsUpTo(items, k, fields) && PlacedFrom(p, items, k)
    ensures FieldsUpTo(items, k + 1, fields + [p])
  {
    assert items[..k + 1][..k] == items[..k];
    var all := fields + [p];
    forall i | 0 <= i < k + 1 && LeavesField(items[i])
      ensures KeptCount(items[..i]) < |all| && PlacedFrom(all[KeptCount(items[..i])], items, i)
    {
      if i < k {
        assert all[KeptCount(items[..i])] == fields[KeptCount(items[..i])];
      }
    }
  }

  lemma NoFieldLeft(items: seq<Item>, k: nat, fields: seq<Placed>)
    requires Aligned(items) && k < |items| && !LeavesField(items[k])
    requires FieldsUpTo(items, k, fields)
    ensures FieldsUpTo(items, k + 1, fields)
  {
    assert items[..k + 1][..k] == items[..k];
  }

  /** Each field comes from an earlier field-leaving item, and carries its
      explicit name or a generated one. */
  ghost predicate Origins(items: seq<Item>, k: nat, fields: seq<Placed>, origin: seq<nat>) {
    && |origin| == |fields|
    && forall m :: 0 <= m < |fields| ==>
         && origin[m] < k <= |items| && LeavesField(items[origin[m]])
         && (items[origin[m]].name.Some? ==> fields[m].name == items[origin[m]].name.value)
         && (items[origin[m]].name.None? ==> IsGenerated(fields[m].name))
  }

  lemma OriginAdded(items: seq<Item>, k: nat, fields: seq<Placed>, origin: seq<nat>, p: Placed)
    requires k < |items| && LeavesField(items[k]) && Origins(items, k, fields, origin)
    requires items[k].name.Some? ==> p.name == items[k].name.value
    requires items[k].name.None? ==> IsGenerated(p.name)
    ensures Origins(items, k + 1, fields + [p], origin + [k])
  {
    var all, o := fields + [p], origin + [k];
    forall m | 0 <= m < |all|
      ensures o[m] < k + 1 <= |items| && LeavesField(items[o[m]])
        && (items[o[m]].name.Some? ==> all[m].name == items[o[m]].name.value)
        && (items[o[m]].name.None? ==> IsGenerated(all[m].name))
    {
      if m < |fields| {
        assert all[m] == fields[m] && o[m] == origin[m];
      }
    }
  }

  /** A taken name that an item `k` with an explicit name asks for again. */
  lemma Duplicate(items: seq<Item>, k: nat, fields: seq<Placed>, origin: seq<nat>, name: string)
    requires k < |items| && LeavesField(items[k]) && items[k].name == Some(name)
    requires Origins(items, k, fields, origin) && name in Names(fields)
    ensures Clash(items, name)
  {
    var m :| 0 <= m < |fields| && Names(fields)[m] == name;
    assert origin[m] < k && items[k].name == Some(name);
  }

  /** After the last item: every field-leaving item has its field. */
  lemma AllPlaced(items: seq<Item>, fields: seq<Placed>, offset: nat)
    requires Aligned(items) && DistinctNames(fields)
    requires FieldsUpTo(items, |items|, fields) && offset == EndOf(items[..|items|])
    ensures |fields| == KeptCount(items) && offset == EndOf(items)
    ensures forall i {:trigger KeptCount(items[..i])} :: 0 <= i < |items| && LeavesField(items[i]) ==>
              KeptCount(items[..i]) < |fields| && PlacedFrom(fields[KeptCount(items[..i])], items, i)
    ensures !ExplicitDuplicate(items)
  {
    assert items[..|items|] == items;
    NoExplicitDuplicate(items, fields);
  }

  /** The state the parse loop carries from item to item. */
  datatype Cursor = Cursor(fields: seq<Placed>, offset: nat, common: nat, dummy: nat, byteorder: char)

  /** What holds of the cursor after the first `k` items. */
  ghost predicate Placing(items: seq<Item>, k: nat, c: Cursor, origin: seq<nat>) {
    && Aligned(items) && k <= |items|
    && c.common > 0
    && Disjoint(c.fields) && DistinctNames(c.fields)
    && (forall i :: 0 <= i < |c.fields| ==> c.fields[i].offset + c.fields[i].size <= c.offset)
    && AlignedIn(c.fields, c.common)
    && c.byteorder == OrderAfter(items[..k])
    && c.offset == EndOf(items[..k])
    && FieldsUpTo(items, k, c.fields)
    && Origins(items, k, c.fields, origin)
  }

  /** Item `k` leaves field `p`, placed past all others under a new name. */
  lemma Kept(items: seq<Item>, k: nat, c: Cursor, origin: seq<nat>, p: Placed, next: Cursor)
    requires k < |items| && LeavesField(items[k]) && Placing(items, k, c, origin)
    requires PlacedFrom(p, items, k) && p.name !in Names(c.fields)
    requires next.fields == c.fields + [p] && next.common > 0 && AlignedIn(next.fields, next.common)
    requires next.offset == EndOf(items[..k + 1]) && next.byteorder == OrderAfter(items[..k + 1])
    ensures Placing(items, k + 1, next, origin + [k])
  {
    NextItem(items, k);
    Appended(c.fields, p, c.offset);
    FieldLeft(items, k, c.fields, p);
    OriginAdded(items, k, c.fields, origin, p);
  }

  /** Item `k` is unnamed padding and leaves no field. */
  lemma Skipped(items: seq<Item>, k: nat, c: Cursor, origin: seq<nat>, next: Cursor)
    requires k < |items| && !LeavesField(items[k]) && Placing(items, k, c, origin)
    requires next.fields == c.fields && next.common > 0 && AlignedIn(next.fields, next.common)
    requires next.offset == EndOf(items[..k + 1]) && next.byteorder == OrderAfter(items[..k + 1])
    ensures Placing(items, k + 1, next, origin)
  {
    NextItem(items, k);
    NoFieldLeft(items, k, c.fields);
  }

  /** One turn of the parse loop: item `k` is placed, and leaves a field
      unless it is unnamed padding; a taken explicit name raises. */
  method PlaceItem(items: seq<Item>, k: nat, c: Cursor, ghost origin: seq<nat>)
    returns (r: Result<Cursor, Pep3118Error>, ghost origin': seq<nat>)
    requires Aligned(items) && k < |items| && Placing(items, k, c, origin)
    ensures r.Err? ==> LeavesField(items[k]) && items[k].name == Some(r.error.name) && Clash(items, r.error.name)
    ensures r.Ok? ==> Placing(items, k + 1, r.value, origin')
    ensures r.Ok? ==> |r.value.fields| == |c.fields| + (if LeavesField(items[k]) then 1 else 0)
  {
    var it := items[k];
    NextItem(items, k);
    var byteorder := c.byteorder;
    if it.order.Some? {
      byteorder := if it.order.value == '!' then '>' else it.order.value;
    }
    var native := byteorder == '@';
    var step := Advance(it, c.offset, native);
    var common := c.common;
    if native {
      var newCommon := Lcm(it.align, common);
      AlignedWiden(c.fields, common, newCommon);
      common := newCommon;
    }
    var name: string;
    var dummy := c.dummy;
    if it.name.Some? {
      name := it.name.value;
    } else {
      name, dummy := DummyName(Names(c.fields), dummy);
    }
    var offset := step.at + step.size + step.extra;
    if LeavesField(it) {
      if name in Names(c.fields) {
        Duplicate(items, k, c.fields, origin, name);
        return Err(DuplicateFieldName(name)), origin;
      }
      var p := Placed(name, step.at, step.size, it.align, native);
      if it.name.None? {
        dummy := dummy + 1;
      }
      r := Ok(Cursor(c.fields + [p], offset, common, dummy, byteorder));
      Kept(items, k, c, origin, p, r.value);
      origin' := origin + [k];
    } else {
      r := Ok(Cursor(c.fields, offset, common, dummy, byteorder));
      Skipped(items, k, c, origin, r.value);
      origin' := origin;
    }
  }

  /** The parse loop of `__dtype_from_pep3118` over parsed items: each
      field-leaving item gets the field `StepAt` places, under its explicit
      name or a generated one, and fields go in order at growing offsets;
      under `@` each starts at a multiple of its alignment, and the common
      alignment is a multiple of every such alignment. A duplicate name
      raises, and only an explicit name can be a duplicate. */
  method PlaceFields(items: seq<Item>) returns (r: Result<Laid, Pep3118Error>)
    requires Aligned(items)
    ensures r.Err? ==> Clash(items, r.error.name)
    ensures ExplicitDuplicate(items) ==> r.Err?
    ensures r.Ok? ==> var fs := r.value.fields;
              && Disjoint(fs) && DistinctNames(fs)
              && r.value.commonAlignment > 0
              && (forall i :: 0 <= i < |fs| ==> fs[i].offset + fs[i].size <= r.value.end)
              && AlignedIn(fs, r.value.commonAlignment)
    // unnamed padding items leave no field; every other item leaves one
    ensures r.Ok? ==> |r.value.fields| == KeptCount(items)
    ensures r.Ok? ==> r.value.end == EndOf(items)
    ensures r.Ok? ==> forall i {:trigger KeptCount(items[..i])} :: 0 <= i < |items| && LeavesField(items[i]) ==>
                        KeptCount(items[..i]) < |r.value.fields|
                        && PlacedFrom(r.value.fields[KeptCount(items[..i])], items, i)
  {
    var c := Cursor([], 0, 1, 0, '@');
    var k := 0;
    ghost var origin: seq<nat> := [];
    while k < |items|
      invariant 0 <= k <= |items|
      invariant Placing(items, k, c, origin)
    {
      var next;
      next, origin := PlaceItem(items, k, c, origin);
      if next.Err? {
        return Err(next.error);
      }
      c := next.value;
      k := k + 1;
    }
    AllPlaced(items, c.fields, c.offset);
    r := Ok(Laid(c.fields, c.offset, c.common));
  }

  // ---------------------------------------------------------------------
  // examples

  /** `"bi"`: under `@` the 4-byte integer after a byte starts at offset 4,
      and the struct ends at 8; `"<bi"` packs it at offset 1, ending at 5. */
  lemma NativeAndPacked()
    ensures var b, i := Item(None, 1, 1, 1, false, None, None), Item(None, 1, 4, 4, false, None, None);
      && StepAt([b, i], 1).at == 4 && EndOf([b, i]) == 8
      && StepAt([b.(order := Some('<')), i], 1).at == 1 && EndOf([b.(order := Some('<')), i]) == 5
  {
    var b, i := Item(None, 1, 1, 1, false, None, None), Item(None, 1, 4, 4, false, None, None);
    var lb := b.(order := Some('<'));
    assert [b, i][..1] == [b] && [b, i][..1][..0] == [];
    assert [lb, i][..1] == [lb] && [lb, i][..1][..0] == [];
    assert [b, i][..2] == [b, i] && [lb, i][..2] == [lb, i];
    assert OrderAfter([b]) == '@' && OrderAfter([b, i]) == '@';
    assert OrderAfter([lb]) == '<' && OrderAfter([lb, i]) == '<';
    assert EndOf([b]) == 1 && EndOf([lb]) == 1;
    assert (-1) % 4 == 3 && (-4) % 4 == 0;
    assert Advance(i, 1, true) == Step(4, 4, 0);
    assert Advance(i, 1, false) == Step(1, 4, 0);
  }

  /** `"bT{i<b}"`: the struct (size 5, alignment 4) ends its own parse
      under `<`, so it is placed under `<` at offset 1, with no start
      padding, and that order stays in force after it. */
  lemma NestedOrderPlacesStruct()
    ensures var b, t := Item(None, 1, 1, 1, false, None, None), Item(Some('<'), 1, 5, 4, false, None, None);
      && StepAt([b, t], 1).at == 1 && EndOf([b, t]) == 6 && OrderAfter([b, t]) == '<'
  {
    var b, t := Item(None, 1, 1, 1, false, None, None), Item(Some('<'), 1, 5, 4, false, None, None);
    assert [b, t][..1] == [b] && [b, t][..1][..0] == [] && [b, t][..2] == [b, t];
    assert OrderAfter([b]) == '@' && OrderAfter([b, t]) == '<';
    assert EndOf([b]) == 1;
    assert Advance(t, 1, false) == Step(1, 5, 0);
  }
}
