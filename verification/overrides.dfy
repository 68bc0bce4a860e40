/**
 * The `__array_function__` protocol (NEP 18): which arguments get to
 * override a NumPy function, in which order they are asked, and the check
 * that a dispatcher has its implementation's signature.
 *
 * Python's type machinery is a parameter: which types define
 * `__array_function__`, `issubclass`, and which types merely inherit
 * ndarray's own implementation.
 */
module Overrides {
  import opened Wrappers

  type TypeId = nat

  /** An argument: its identity and its type. */
  datatype Arg = Arg(obj: nat, ty: TypeId)

  datatype Types = Types(
    hasArrayFunction: TypeId -> bool,
    isSubclass: (TypeId, TypeId) -> bool,
    // `type(arg).__array_function__ is ndarray.__array_function__`
    usesNdarrayImpl: TypeId -> bool)

  /** `issubclass` as Python has it: a partial order. */
  ghost predicate SubclassOrder(t: Types) {
    && (forall x, y, z :: t.isSubclass(x, y) && t.isSubclass(y, z) ==> t.isSubclass(x, z))
    && (forall x, y :: t.isSubclass(x, y) && t.isSubclass(y, x) ==> x == y)
  }

  /** The result of `get_overloaded_types_and_args`. */
  datatype Overloaded = Overloaded(types: seq<TypeId>, args: seq<Arg>)

  predicate Distinct<T(==)>(s: seq<T>) {
    forall i, j :: 0 <= i < j < |s| ==> s[i] != s[j]
  }

  function TypesOf(args: seq<Arg>): (r: seq<TypeId>)
    ensures |r| == |args| && forall i :: 0 <= i < |args| ==> r[i] == args[i].ty
  {
    if args == [] then [] else [args[0].ty] + TypesOf(args[1..])
  }

  /** No argument comes after an argument of one of its subclasses. */
  predicate SubclassesFirst(t: Types, args: seq<Arg>) {
    forall i, j :: 0 <= i < j < |args| ==> !t.isSubclass(args[j].ty, args[i].ty)
  }

  /** Where a new argument of type `ty` goes: before the first argument it
      is a subclass of, else at the end. */
  function InsertIndex(t: Types, ty: TypeId, args: seq<Arg>): (idx: nat)
    ensures idx <= |args|
    ensures forall j :: 0 <= j < idx ==> !t.isSubclass(ty, args[j].ty)
    ensures idx < |args| ==> t.isSubclass(ty, args[idx].ty)
  {
    if args == [] || t.isSubclass(ty, args[0].ty) then 0 else 1 + InsertIndex(t, ty, args[1..])
  }

  /** One turn of the collecting loop: an argument whose type is new and
      defines `__array_function__` is recorded and inserted. */
  function CollectOne(t: Types, acc: Overloaded, arg: Arg): (r: Overloaded)
    ensures arg.ty in acc.types || !t.hasArrayFunction(arg.ty) ==> r == acc
    ensures arg.ty !in acc.types && t.hasArrayFunction(arg.ty) ==>
              var idx := InsertIndex(t, arg.ty, acc.args);
              r.types == acc.types + [arg.ty] && |r.args| == |acc.args| + 1 && r.args[idx] == arg
              && r.args[..idx] == acc.args[..idx] && r.args[idx + 1..] == acc.args[idx..]
  {
    if arg.ty !in acc.types && t.hasArrayFunction(arg.ty) then
      var idx := InsertIndex(t, arg.ty, acc.args);
      Overloaded(acc.types + [arg.ty], acc.args[..idx] + [arg] + acc.args[idx..])
    else acc
  }

  /** Index of the first argument of type `ty`, or the length if none. */
  function FirstOfType(args: seq<Arg>, ty: TypeId): (i: nat)
    ensures i <= |args| && (i < |args| ==> args[i].ty == ty)
    ensures forall k :: 0 <= k < i ==> args[k].ty != ty
  {
    if args == [] then 0 else if args[0].ty == ty then 0 else 1 + FirstOfType(args[1..], ty)
  }

  /** The argument types are pairwise different. */
  predicate DistinctTypes(args: seq<Arg>) {
    forall i, j :: 0 <= i < j < |args| ==> args[i].ty != args[j].ty
  }

  /** Every argument kept is the first of its type in `relevant`. */
  predicate FirstsOf(args: seq<Arg>, relevant: seq<Arg>) {
    forall a :: a in args ==> FirstOfType(relevant, a.ty) < |relevant| && relevant[FirstOfType(relevant, a.ty)] == a
  }

  /** The recorded types: each type defining the protocol, once, in order
      of first appearance. */
  ghost predicate TypesRecorded(t: Types, types: seq<TypeId>, relevant: seq<Arg>) {
    && Distinct(types)
    && (forall ty :: ty in types <==> t.hasArrayFunction(ty) && FirstOfType(relevant, ty) < |relevant|)
    && (forall i, j :: 0 <= i < j < |types| ==> FirstOfType(relevant, types[i]) < FirstOfType(relevant, types[j]))
  }

  /** An argument stands ahead of one whose type appeared earlier only
      because it subclasses an argument between the two: otherwise the
      arguments keep the order in which their types first appeared. */
  ghost predicate AheadOnlyOfSuperclasses(t: Types, args: seq<Arg>, relevant: seq<Arg>) {
    forall i, j :: 0 <= i < j < |args| && FirstOfType(relevant, args[j].ty) < FirstOfType(relevant, args[i].ty) ==>
      exists k :: i < k <= j && t.isSubclass(args[i].ty, args[k].ty)
  }

  predicate HasType(args: seq<Arg>, ty: TypeId) {
    exists k :: 0 <= k < |args| && args[k].ty == ty
  }

  /** The arguments recorded: one per recorded type, the first of it. */
  ghost predicate ArgsRecorded(types: seq<TypeId>, args: seq<Arg>, relevant: seq<Arg>) {
    && |args| == |types| && DistinctTypes(args) && FirstsOf(args, relevant)
    && (forall a :: a in args ==> a.ty in types)
    && (forall ty :: ty in types ==> HasType(args, ty))
  }

  /** The loop of `get_overloaded_types_and_args` over `relevant`, before
      ndarray's own implementation is filtered out. */
  function Collect(t: Types, relevant: seq<Arg>): Overloaded
    decreases |relevant|
  {
    if relevant == [] then Overloaded([], [])
    else CollectOne(t, Collect(t, relevant[..|relevant| - 1]), relevant[|relevant| - 1])
  }

  /** The collecting loop, one argument at a time. */
  lemma CollectAppend(t: Types, p: seq<Arg>, arg: Arg)
    ensures Collect(t, p + [arg]) == CollectOne(t, Collect(t, p), arg)
  {
    assert (p + [arg])[..|p|] == p;
  }

  /** What the loop records: each type defining the protocol once, in order
      of first appearance; for each, the first argument of that type; and,
      with `issubclass` a partial order, subclasses before superclasses. */
  lemma {:induction false} CollectRecords(t: Types, relevant: seq<Arg>)
    ensures var r := Collect(t, relevant);
            && TypesRecorded(t, r.types, relevant)
            && ArgsRecorded(r.types, r.args, relevant)
            && AheadOnlyOfSuperclasses(t, r.args, relevant)
            && (SubclassOrder(t) ==> SubclassesFirst(t, r.args))
    decreases |relevant|
  {
    if relevant != [] {
      var n := |relevant| - 1;
      var p := relevant[..n];
      assert relevant == p + [relevant[n]];
      CollectRecords(t, p);
      CollectAppend(t, p, relevant[n]);
      StepTypes(t, p, relevant[n], Collect(t, p), Collect(t, relevant));
      StepArgs(t, p, relevant[n], Collect(t, p), Collect(t, relevant));
      StepAhead(t, p, relevant[n], Collect(t, p), Collect(t, relevant));
    }
  }

  /** Appending an argument does not move the first argument of a type
      already present. */
  lemma {:induction false} FirstOfTypeAppend(p: seq<Arg>, a: Arg, ty: TypeId)
    ensures FirstOfType(p + [a], ty) == if FirstOfType(p, ty) < |p| then FirstOfType(p, ty)
                                        else if a.ty == ty then |p| else |p| + 1
  {
    if p != [] && p[0].ty != ty {
      assert (p + [a])[1..] == p[1..] + [a];
      FirstOfTypeAppend(p[1..], a, ty);
    }
  }

  lemma StepTypes(t: Types, p: seq<Arg>, arg: Arg, acc: Overloaded, r: Overloaded)
    requires r == CollectOne(t, acc, arg) && TypesRecorded(t, acc.types, p)
    ensures TypesRecorded(t, r.types, p + [arg])
  {
    var rel := p + [arg];
    forall ty ensures FirstOfType(rel, ty) < |rel| <==> FirstOfType(p, ty) < |p| || arg.ty == ty {
      FirstOfTypeAppend(p, arg, ty);
    }
    forall i | 0 <= i < |acc.types| ensures FirstOfType(rel, acc.types[i]) == FirstOfType(p, acc.types[i]) < |p| {
      FirstOfTypeAppend(p, arg, acc.types[i]);
    }
    if r.types != acc.types {
      FirstOfTypeAppend(p, arg, arg.ty);
      assert FirstOfType(rel, arg.ty) == |p|;
    }
  }

  /** The new argument either changes nothing or goes ahead of exactly the
      arguments from the first one its type subclasses on. */
  lemma StepAhead(t: Types, p: seq<Arg>, arg: Arg, acc: Overloaded, r: Overloaded)
    requires r == CollectOne(t, acc, arg) && TypesRecorded(t, acc.types, p) && ArgsRecorded(acc.types, acc.args, p)
    requires AheadOnlyOfSuperclasses(t, acc.args, p)
    ensures AheadOnlyOfSuperclasses(t, r.args, p + [arg])
  {
    var rel := p + [arg];
    var args := acc.args;
    forall m | 0 <= m < |args| ensures FirstOfType(rel, args[m].ty) == FirstOfType(p, args[m].ty) < |p| {
      assert args[m] in args;
      FirstOfTypeAppend(p, arg, args[m].ty);
    }
    if r == acc {
      AheadUnchanged(t, args, p, rel);
    } else {
      FirstOfTypeAppend(p, arg, arg.ty);
      InsertAhead(t, args, arg, InsertIndex(t, arg.ty, args), r.args, p, rel);
    }
  }

  lemma AheadUnchanged(t: Types, args: seq<Arg>, p: seq<Arg>, rel: seq<Arg>)
    requires forall m :: 0 <= m < |args| ==> FirstOfType(rel, args[m].ty) == FirstOfType(p, args[m].ty)
    requires AheadOnlyOfSuperclasses(t, args, p)
    ensures AheadOnlyOfSuperclasses(t, args, rel)
  {
  }

  lemma InsertAhead(t: Types, args: seq<Arg>, arg: Arg, idx: nat, r: seq<Arg>, p: seq<Arg>, rel: seq<Arg>)
    requires idx == InsertIndex(t, arg.ty, args) && r == args[..idx] + [arg] + args[idx..]
    requires forall m :: 0 <= m < |args| ==> FirstOfType(rel, args[m].ty) == FirstOfType(p, args[m].ty) < |p|
    requires FirstOfType(rel, arg.ty) == |p|
    requires AheadOnlyOfSuperclasses(t, args, p)
    ensures AheadOnlyOfSuperclasses(t, r, rel)
  {
    InsertedAt(args, arg, idx, r);
    forall i, j | 0 <= i < j < |r| && FirstOfType(rel, r[j].ty) < FirstOfType(rel, r[i].ty)
      ensures exists k :: i < k <= j && t.isSubclass(r[i].ty, r[k].ty)
    {
      InsertPair(t, args, arg, idx, r, p, rel, i, j);
    }
  }

  /** One pair of the list after the insertion: the inserted argument sits
      just ahead of a superclass, and an old pair keeps its witness. */
  lemma InsertPair(t: Types, args: seq<Arg>, arg: Arg, idx: nat, r: seq<Arg>, p: seq<Arg>, rel: seq<Arg>, i: nat, j: nat)
    requires idx <= |args| && |r| == |args| + 1 && r[idx] == arg
    requires forall m :: 0 <= m < idx ==> r[m] == args[m]
    requires forall m :: idx < m < |r| ==> r[m] == args[m - 1]
    requires idx < |args| ==> t.isSubclass(arg.ty, args[idx].ty)
    requires forall m :: 0 <= m < |args| ==> FirstOfType(rel, args[m].ty) == FirstOfType(p, args[m].ty) < |p|
    requires FirstOfType(rel, arg.ty) == |p|
    requires AheadOnlyOfSuperclasses(t, args, p)
    requires i < j < |r| && FirstOfType(rel, r[j].ty) < FirstOfType(rel, r[i].ty)
    ensures exists k :: i < k <= j && t.isSubclass(r[i].ty, r[k].ty)
  {
    if i == idx {
      assert r[idx + 1] == args[idx];
      assert t.isSubclass(r[i].ty, r[idx + 1].ty);
    } else {
      var i0 := if i < idx then i else i - 1;
      assert r[i] == args[i0];
      assert j != idx;
      var j0 := if j < idx then j else j - 1;
      assert r[j] == args[j0];
      var k0 := OldWitness(t, args, p, i0, j0);
      PairShifted(t, args, arg, idx, r, i, j, i0, j0, k0);
    }
  }

  lemma OldWitness(t: Types, args: seq<Arg>, p: seq<Arg>, i0: nat, j0: nat) returns (k0: nat)
    requires AheadOnlyOfSuperclasses(t, args, p)
    requires i0 < j0 < |args| && FirstOfType(p, args[j0].ty) < FirstOfType(p, args[i0].ty)
    ensures i0 < k0 <= j0 && t.isSubclass(args[i0].ty, args[k0].ty)
  {
    k0 :| i0 < k0 <= j0 && t.isSubclass(args[i0].ty, args[k0].ty);
  }

  /** An old pair keeps its witness, shifted past the insertion. */
  lemma PairShifted(t: Types, args: seq<Arg>, arg: Arg, idx: nat, r: seq<Arg>, i: nat, j: nat, i0: nat, j0: nat, k0: nat)
    requires idx <= |args| && |r| == |args| + 1
    requires forall m :: 0 <= m < idx ==> r[m] == args[m]
    requires forall m :: idx < m < |r| ==> r[m] == args[m - 1]
    requires i != idx && j != idx && i < j < |r|
    requires i0 == (if i < idx then i else i - 1) && j0 == (if j < idx then j else j - 1)
    requires i0 < k0 <= j0 && t.isSubclass(args[i0].ty, args[k0].ty)
    ensures exists k :: i < k <= j && t.isSubclass(r[i].ty, r[k].ty)
  {
    var k := if k0 < idx then k0 else k0 + 1;
    assert r[k] == args[k0] && r[i] == args[i0];
  }

  lemma StepArgs(t: Types, p: seq<Arg>, arg: Arg, acc: Overloaded, r: Overloaded)
    requires r == CollectOne(t, acc, arg) && TypesRecorded(t, acc.types, p) && ArgsRecorded(acc.types, acc.args, p)
    requires SubclassOrder(t) ==> SubclassesFirst(t, acc.args)
    ensures ArgsRecorded(r.types, r.args, p + [arg])
    ensures SubclassOrder(t) ==> SubclassesFirst(t, r.args)
  {
    var rel := p + [arg];
    forall a | a in acc.args ensures FirstOfType(rel, a.ty) == FirstOfType(p, a.ty) {
      FirstOfTypeAppend(p, arg, a.ty);
    }
    if r != acc {
      var idx := InsertIndex(t, arg.ty, acc.args);
      InsertedPreserves(t, acc.args, arg, idx, r.args);
      InsertedContents(acc.args, arg, idx, r.args);
      FirstOfTypeAppend(p, arg, arg.ty);
      assert FirstOfType(rel, arg.ty) == |p| && rel[|p|] == arg;
      assert r.args[idx].ty == arg.ty;
    }
  }

  /** What is in the sequence after an insertion. */
  lemma InsertedContents(args: seq<Arg>, arg: Arg, idx: nat, r: seq<Arg>)
    requires idx <= |args| && r == args[..idx] + [arg] + args[idx..]
    ensures forall a :: a in r <==> a == arg || a in args
    ensures forall ty :: HasType(args, ty) ==> HasType(r, ty)
  {
    assert args == args[..idx] + args[idx..];
    forall ty | HasType(args, ty) ensures HasType(r, ty) {
      var k :| 0 <= k < |args| && args[k].ty == ty;
      if k < idx { assert r[k] == args[k]; } else { assert r[k + 1] == args[k]; }
    }
  }

  /** `x` is not below `y` when `y` is below something `x` is not below. */
  lemma NotBelowTransitively(t: Types, x: TypeId, y: TypeId, z: TypeId)
    requires SubclassOrder(t) && t.isSubclass(y, z) && !t.isSubclass(x, z)
    ensures !t.isSubclass(x, y)
  {
  }

  /** Two different types are never each other's subclasses. */
  lemma NotBelowBoth(t: Types, x: TypeId, y: TypeId)
    requires SubclassOrder(t) && t.isSubclass(y, x) && x != y
    ensures !t.isSubclass(x, y)
  {
  }

  /** Where each element of the sequence is after an insertion. */
  lemma InsertedAt(args: seq<Arg>, arg: Arg, idx: nat, r: seq<Arg>)
    requires idx <= |args| && r == args[..idx] + [arg] + args[idx..]
    ensures |r| == |args| + 1 && r[idx] == arg
    ensures forall i :: 0 <= i < idx ==> r[i] == args[i]
    ensures forall i :: idx < i < |r| ==> r[i] == args[i - 1]
  {
  }

  /** Inserting at `InsertIndex` keeps the argument types distinct and, for
      a partial order, subclasses first. */
  lemma InsertedPreserves(t: Types, args: seq<Arg>, arg: Arg, idx: nat, r: seq<Arg>)
    requires idx == InsertIndex(t, arg.ty, args) && r == args[..idx] + [arg] + args[idx..]
    requires DistinctTypes(args) && forall a :: a in args ==> a.ty != arg.ty
    requires SubclassOrder(t) ==> SubclassesFirst(t, args)
    ensures DistinctTypes(r)
    ensures SubclassOrder(t) ==> SubclassesFirst(t, r)
  {
    InsertedAt(args, arg, idx, r);
    forall i, j | 0 <= i < j < |r| ensures r[i].ty != r[j].ty {
      if i != idx && j != idx {
        assert r[i] in args && r[j] in args;
      }
    }
    if SubclassOrder(t) {
      forall i, j | 0 <= i < j < |r| ensures !t.isSubclass(r[j].ty, r[i].ty) {
        if i == idx {
          // a later argument subclassing `arg` would subclass args[idx],
          // which comes before it, or be args[idx] itself
          if j - 1 == idx {
            NotBelowBoth(t, args[idx].ty, arg.ty);
          } else {
            NotBelowTransitively(t, args[j - 1].ty, arg.ty, args[idx].ty);
          }
        }
      }
    }
  }

  /** `get_overloaded_types_and_args`: arguments whose type uses ndarray's
      own implementation are dropped from the arguments, but not from the
      types. */
  function GetOverloadedTypesAndArgs(t: Types, relevant: seq<Arg>): (r: Overloaded)
    ensures r.types == Collect(t, relevant).types
    ensures forall a :: a in r.args <==> a in Collect(t, relevant).args && !t.usesNdarrayImpl(a.ty)
  {
    var c := Collect(t, relevant);
    Overloaded(c.types, WithoutNdarrayImpl(t, c.args))
  }

  /** The arguments asked: the first argument of each type that defines the
      protocol with an implementation of its own, subclasses before
      superclasses. */
  lemma OverloadedArgsAsked(t: Types, relevant: seq<Arg>)
    ensures var r := GetOverloadedTypesAndArgs(t, relevant);
            && TypesRecorded(t, r.types, relevant)
            && (forall a :: a in r.args ==> !t.usesNdarrayImpl(a.ty) && a.ty in r.types)
            && FirstsOf(r.args, relevant)
            && (forall ty :: ty in r.types && !t.usesNdarrayImpl(ty) ==> exists a :: a in r.args && a.ty == ty)
            && (SubclassOrder(t) ==> SubclassesFirst(t, r.args))
  {
    var c := Collect(t, relevant);
    CollectRecords(t, relevant);
    FilterKeepsOrder(t, c.args);
    var r := GetOverloadedTypesAndArgs(t, relevant);
    forall ty | ty in r.types && !t.usesNdarrayImpl(ty) ensures exists a :: a in r.args && a.ty == ty {
      var k :| 0 <= k < |c.args| && c.args[k].ty == ty;
      assert c.args[k] in r.args;
    }
  }

  function WithoutNdarrayImpl(t: Types, args: seq<Arg>): (r: seq<Arg>)
    ensures forall a :: a in r <==> a in args && !t.usesNdarrayImpl(a.ty)
    ensures |r| <= |args|
  {
    if args == [] then []
    else if t.usesNdarrayImpl(args[0].ty) then WithoutNdarrayImpl(t, args[1..])
    else [args[0]] + WithoutNdarrayImpl(t, args[1..])
  }

  /** Filtering keeps the relative order of what remains. */
  lemma {:induction false} FilterKeepsOrder(t: Types, args: seq<Arg>)
    requires SubclassOrder(t) ==> SubclassesFirst(t, args)
    ensures SubclassOrder(t) ==> SubclassesFirst(t, WithoutNdarrayImpl(t, args))
  {
    if args != [] && SubclassOrder(t) {
      FilterKeepsOrder(t, args[1..]);
      var rest := WithoutNdarrayImpl(t, args[1..]);
      forall j | 0 <= j < |rest| ensures !t.isSubclass(rest[j].ty, args[0].ty) {
        assert rest[j] in args[1..];
      }
    }
  }

  /** How a call through the protocol ends. */
  datatype Dispatched<V> = Implementation | Override(arg: Arg, value: V) | NoImplementationFound(types: seq<TypeId>)

  /** The loop over the overloaded arguments: the first answer that is not
      `NotImplemented` (modelled as `None`) wins. */
  function FirstAnswer<V>(args: seq<Arg>, answer: Arg -> Option<V>): (r: Option<(nat, V)>)
    ensures r.Some? ==> r.value.0 < |args| && answer(args[r.value.0]) == Some(r.value.1)
    ensures r.Some? ==> forall j :: 0 <= j < r.value.0 ==> answer(args[j]).None?
    ensures r.None? <==> forall j :: 0 <= j < |args| ==> answer(args[j]).None?
  {
    if args == [] then None
    else if answer(args[0]).Some? then Some((0, answer(args[0]).value))
    else
      var r := FirstAnswer(args[1..], answer);
      if r.None? then None else Some((r.value.0 + 1, r.value.1))
  }

  /** `array_function_implementation_or_override`; `answer(arg, types)` is
      `arg.__array_function__(public_api, types, args, kwargs)`. */
  function ImplementationOrOverride<V>(t: Types, relevant: seq<Arg>, answer: (Arg, seq<TypeId>) -> Option<V>)
    : (r: Dispatched<V>)
    ensures var o := GetOverloadedTypesAndArgs(t, relevant);
            && (r.Implementation? <==> o.args == [])
            && (r.Override? ==>
                  exists k :: && 0 <= k < |o.args| && o.args[k] == r.arg
                              && answer(r.arg, o.types) == Some(r.value)
                              && forall j :: 0 <= j < k ==> answer(o.args[j], o.types).None?)
            && (r.NoImplementationFound? <==>
                  o.args != [] && forall a :: a in o.args ==> answer(a, o.types).None?)
            && (r.NoImplementationFound? ==> r.types == TypesOf(o.args))
  {
    var o := GetOverloadedTypesAndArgs(t, relevant);
    if o.args == [] then Implementation
    else
      var first := FirstAnswer(o.args, a => answer(a, o.types));
      if first.Some? then Override(o.args[first.value.0], first.value.1)
      else NoImplementationFound(TypesOf(o.args))
  }

  /** A Python value, as far as default arguments are concerned. */
  datatype PyValue = PyNone | PyObject(id: nat)

  /** What `getargspec` reports; `defaults` is `None` or a tuple. */
  datatype ArgSpec = ArgSpec(args: seq<string>, varargs: Option<string>, keywords: Option<string>,
                             defaults: Option<seq<PyValue>>)

  datatype SignatureError =
    | DifferentSignatures   // RuntimeError: different function signatures
    | NonNoneDefaults       // RuntimeError: dispatchers may only default to None
    | LenOfNone             // TypeError from len(None)

  /** Python truthiness of the defaults: None and () are false. */
  predicate Truthy(d: Option<seq<PyValue>>) {
    d.Some? && d.value != []
  }

  /** What the check accepts, field by field. */
  predicate Matching(impl: ArgSpec, disp: ArgSpec) {
    && impl.args == disp.args && impl.varargs == disp.varargs && impl.keywords == disp.keywords
    && (impl.defaults.None? ==> !Truthy(disp.defaults))
    && (impl.defaults.Some? ==>
          && disp.defaults.Some? && |impl.defaults.value| == |disp.defaults.value|
          && forall i :: 0 <= i < |disp.defaults.value| ==> disp.defaults.value[i] == PyNone)
  }

  /** `verify_matching_signatures`. */
  function VerifyMatchingSignatures(impl: ArgSpec, disp: ArgSpec): (r: Result<(), SignatureError>)
    ensures r.Ok? <==> Matching(impl, disp)
    // `len(None)` is reached only for an implementation with an empty
    // defaults tuple and a dispatcher without defaults
    ensures r == Err(LenOfNone) <==>
              && impl.args == disp.args && impl.varargs == disp.varargs && impl.keywords == disp.keywords
              && impl.defaults == Some([]) && disp.defaults.None?
    ensures r == Err(NonNoneDefaults) ==>
              && impl.defaults.Some? && disp.defaults.Some?
              && exists i :: 0 <= i < |disp.defaults.value| && disp.defaults.value[i] != PyNone
  {
    if impl.args != disp.args || impl.varargs != disp.varargs || impl.keywords != disp.keywords
       || Truthy(impl.defaults) != Truthy(disp.defaults) then Err(DifferentSignatures)
    else if impl.defaults.Some? && disp.defaults.None? then Err(LenOfNone)
    else if impl.defaults.Some? && |impl.defaults.value| != |disp.defaults.value| then Err(DifferentSignatures)
    else if impl.defaults.Some? && disp.defaults.value != seq(|disp.defaults.value|, _ => PyNone) then
      assert exists i :: 0 <= i < |disp.defaults.value| && disp.defaults.value[i] != PyNone;
      Err(NonNoneDefaults)
    else Ok(())
  }
}

/** The orderings the protocol promises, on concrete argument lists. */
module OverridesExamples {
  import opened Overrides

  /** Duck types A, B and C with B and C subclasses of A, plus ndarray (4),
      which only has ndarray's own implementation. */
  const DuckTypes: Types := Types(
    (ty: TypeId) => 1 <= ty <= 4,
    (x: TypeId, y: TypeId) => x == y || (y == 1 && (x == 2 || x == 3)),
    (ty: TypeId) => ty == 4)

  lemma DuckSubclassing()
    ensures DuckTypes.isSubclass(2, 1) && DuckTypes.isSubclass(3, 1) && !DuckTypes.isSubclass(3, 2)
    ensures !DuckTypes.isSubclass(2, 4) && DuckTypes.hasArrayFunction(1) && DuckTypes.hasArrayFunction(2)
    ensures DuckTypes.hasArrayFunction(3) && DuckTypes.hasArrayFunction(4)
    ensures DuckTypes.usesNdarrayImpl(4) && !DuckTypes.usesNdarrayImpl(2)
    ensures !DuckTypes.usesNdarrayImpl(1) && !DuckTypes.usesNdarrayImpl(3)
  {
  }

  /** One collecting step on the duck types, from a known accumulator. */
  lemma DuckStep(t: Types, p: seq<Arg>, arg: Arg, before: Overloaded, after: Overloaded)
    requires t == DuckTypes && Collect(t, p) == before && CollectOne(t, before, arg) == after
    ensures Collect(t, p + [arg]) == after
  {
    CollectAppend(t, p, arg);
  }

  /** A subclass of the only argument so far goes before it. */
  lemma DuckSubclassBeforeBase(t: Types, a: Arg, b: Arg)
    requires t == DuckTypes && a == Arg(0, 1) && b == Arg(1, 2)
    ensures CollectOne(t, Overloaded([1], [a]), b) == Overloaded([1, 2], [b, a])
  {
    DuckSubclassing();
    assert InsertIndex(t, 2, [a]) == 0;
  }

  /** A second subclass goes after the first, still before the base. */
  lemma DuckSiblingBeforeBase(t: Types, a: Arg, b: Arg, c: Arg)
    requires t == DuckTypes && a == Arg(0, 1) && b == Arg(1, 2) && c == Arg(2, 3)
    ensures CollectOne(t, Overloaded([1, 2], [b, a]), c) == Overloaded([1, 2, 3], [b, c, a])
  {
    DuckSubclassing();
    assert InsertIndex(t, 3, [b, a]) == 1;
    assert [b, a][..1] + [c] + [b, a][1..] == [b, c, a];
  }

  lemma DuckCollectsOne(t: Types, a: Arg)
    requires t == DuckTypes && 1 <= a.ty <= 4
    ensures Collect(t, [a]) == Overloaded([a.ty], [a])
  {
    DuckStep(t, [], a, Overloaded([], []), Overloaded([a.ty], [a]));
    assert [] + [a] == [a];
  }

  lemma DuckCollectsTwo(t: Types, a: Arg, b: Arg)
    requires t == DuckTypes && a == Arg(0, 1) && b == Arg(1, 2)
    ensures Collect(t, [a, b]) == Overloaded([1, 2], [b, a])
  {
    DuckCollectsOne(t, a);
    DuckSubclassBeforeBase(t, a, b);
    DuckStep(t, [a], b, Overloaded([1], [a]), Overloaded([1, 2], [b, a]));
    assert [a] + [b] == [a, b];
  }

  lemma DuckCollectsThree(t: Types, a: Arg, b: Arg, c: Arg)
    requires t == DuckTypes && a == Arg(0, 1) && b == Arg(1, 2) && c == Arg(2, 3)
    ensures Collect(t, [a, b, c]) == Overloaded([1, 2, 3], [b, c, a])
  {
    DuckCollectsTwo(t, a, b);
    DuckSiblingBeforeBase(t, a, b, c);
    DuckStep(t, [a, b], c, Overloaded([1, 2], [b, a]), Overloaded([1, 2, 3], [b, c, a]));
    assert [a, b] + [c] == [a, b, c];
  }

  /** `[a, b, c]` is asked in the order `[b, c, a]`: both subclasses go
      before their superclass, in order of appearance. */
  lemma SubclassesAskedFirst(t: Types, a: Arg, b: Arg, c: Arg)
    requires t == DuckTypes && a == Arg(0, 1) && b == Arg(1, 2) && c == Arg(2, 3)
    ensures GetOverloadedTypesAndArgs(t, [a, b, c]).args == [b, c, a]
  {
    DuckCollectsThree(t, a, b, c);
    DuckSubclassing();
    assert WithoutNdarrayImpl(t, [b, c, a]) == [b, c, a];
  }

  /** An argument whose type is new goes after one it does not subclass. */
  lemma DuckAfterNdarray(t: Types, n: Arg, b: Arg)
    requires t == DuckTypes && n == Arg(0, 4) && b == Arg(1, 2)
    ensures CollectOne(t, Overloaded([4], [n]), b) == Overloaded([4, 2], [n, b])
  {
    DuckSubclassing();
    assert InsertIndex(t, 2, [n]) == 1;
  }

  lemma NdarrayCollectsTwo(t: Types, n: Arg, b: Arg)
    requires t == DuckTypes && n == Arg(0, 4) && b == Arg(1, 2)
    ensures Collect(t, [n, b]) == Overloaded([4, 2], [n, b])
  {
    DuckCollectsOne(t, n);
    DuckAfterNdarray(t, n, b);
    DuckStep(t, [n], b, Overloaded([4], [n]), Overloaded([4, 2], [n, b]));
    assert [n] + [b] == [n, b];
  }

  /** An ndarray argument is counted among the types but never asked. */
  lemma NdarrayCountedNotAsked(t: Types, n: Arg, b: Arg, m: Arg)
    requires t == DuckTypes && n == Arg(0, 4) && b == Arg(1, 2) && m == Arg(2, 4)
    ensures var o := GetOverloadedTypesAndArgs(t, [n, b, m]);
            o.types == [4, 2] && o.args == [b]
  {
    var c2 := Overloaded([4, 2], [n, b]);
    NdarrayCollectsTwo(t, n, b);
    DuckStep(t, [n, b], m, c2, c2);
    assert [n, b] + [m] == [n, b, m];
    DuckSubclassing();
    assert WithoutNdarrayImpl(t, [n, b]) == [b];
  }

  lemma DuckUnrelatedAfterBase(t: Types, a: Arg, n: Arg)
    requires t == DuckTypes && a == Arg(0, 1) && n == Arg(1, 4)
    ensures CollectOne(t, Overloaded([1], [a]), n) == Overloaded([1, 4], [a, n])
  {
    DuckSubclassing();
    assert InsertIndex(t, 4, [a]) == 1;
  }

  lemma DuckSubclassAheadOfBase(t: Types, a: Arg, n: Arg, c: Arg)
    requires t == DuckTypes && a == Arg(0, 1) && n == Arg(1, 4) && c == Arg(2, 3)
    ensures CollectOne(t, Overloaded([1, 4], [a, n]), c) == Overloaded([1, 4, 3], [c, a, n])
  {
    DuckSubclassing();
    assert InsertIndex(t, 3, [a, n]) == 0;
    assert [a, n][..0] + [c] + [a, n][0..] == [c, a, n];
  }

  /** An unrelated type does not keep its place: `[a, n, c]` with `c` a
      subclass of `a` and `n` unrelated to both is collected as `[c, a, n]`,
      `c` ahead of `n` because it must go ahead of `a`. */
  lemma UnrelatedOvertaken(t: Types, a: Arg, n: Arg, c: Arg)
    requires t == DuckTypes && a == Arg(0, 1) && n == Arg(1, 4) && c == Arg(2, 3)
    ensures Collect(t, [a, n, c]) == Overloaded([1, 4, 3], [c, a, n])
    ensures !t.isSubclass(c.ty, n.ty) && !t.isSubclass(n.ty, c.ty)
  {
    DuckCollectsOne(t, a);
    DuckUnrelatedAfterBase(t, a, n);
    DuckStep(t, [a], n, Overloaded([1], [a]), Overloaded([1, 4], [a, n]));
    assert [a] + [n] == [a, n];
    DuckSubclassAheadOfBase(t, a, n, c);
    DuckStep(t, [a, n], c, Overloaded([1, 4], [a, n]), Overloaded([1, 4, 3], [c, a, n]));
    assert [a, n] + [c] == [a, n, c];
  }
}
