/**
 * The number protocol of arrays in `numpy/core/src/multiarray/number.c`:
 * the table of ufuncs behind the operators (`PyArray_SetNumericOps` and
 * `PyArray_GetNumericOps`), the truth value of an array, the guards of the
 * conversions to Python scalars and to an index, and the choice of the fast
 * path of `**` for scalar exponents. Ufuncs are named, not run; exponents
 * are real numbers, without the rounding of a C double.
 */
module NumberOps {
  import opened Wrappers
  import opened DescrMath

  // ---------------------------------------------------------------------
  // the numeric-ops table

  /** A ufunc or other callable, by identity. */
  type OpId = nat

  /** The slots of `n_ops`, one per operation; a dictionary names them by
      their field names (`add`, `_ones_like`, ...). */
  datatype Op =
    | Add | Subtract | Multiply | Divide | Remainder | Divmod | Power | Square | Reciprocal
    | OnesLike | Sqrt | Cbrt | Negative | Absolute | Invert | LeftShift | RightShift
    | BitwiseAnd | BitwiseOr | BitwiseXor | Less | LessEqual | Equal | NotEqual | Greater
    | GreaterEqual | FloorDivide | TrueDivide | LogicalOr | LogicalAnd | Floor | Ceil
    | Maximum | Minimum | Rint | Conjugate

  /** The order in which `PyArray_SetNumericOps` looks the slots up. */
  const SetOrder: seq<Op> := [Add, Subtract, Multiply, Divide, Remainder, Divmod, Power, Square,
    Reciprocal, OnesLike, Sqrt, Cbrt, Negative, Absolute, Invert, LeftShift, RightShift, BitwiseAnd,
    BitwiseOr, BitwiseXor, Less, LessEqual, Equal, NotEqual, Greater, GreaterEqual, FloorDivide,
    TrueDivide, LogicalOr, LogicalAnd, Floor, Ceil, Maximum, Minimum, Rint, Conjugate]

  /** `n_ops`: the slots that are set; a NULL slot is absent. */
  type Table = map<Op, OpId>

  /** A value of the dictionary passed in. */
  datatype PyValue = Callable(fn: OpId) | NotCallable

  /** A value that is not callable makes the call fail with -1. */
  datatype SetStatus = Done | NotCallableValue(op: Op)

  /** The `SET` steps for `ops`: each slot the dictionary names is
      replaced; the first non-callable value stops the walk, with the slots
      before it already replaced. */
  function SetFrom(t: Table, dict: map<Op, PyValue>, ops: seq<Op>): (r: (SetStatus, Table))
    decreases ops
  {
    if ops == [] then (Done, t)
    else if ops[0] in dict && dict[ops[0]].NotCallable? then (NotCallableValue(ops[0]), t)
    else
      var t' := if ops[0] in dict then t[ops[0] := dict[ops[0]].fn] else t;
      SetFrom(t', dict, ops[1..])
  }

  /** `PyArray_SetNumericOps`: 0, or -1 for a non-callable value. */
  function SetNumericOps(t: Table, dict: map<Op, PyValue>): (r: (int, Table))
    ensures r.0 == 0 || r.0 == -1
  {
    var (status, t') := SetFrom(t, dict, SetOrder);
    (if status == Done then 0 else -1, t')
  }

  /** `PyArray_GetNumericOps`: the slots that are set, but never `cbrt`. */
  function GetNumericOps(t: Table): (r: map<Op, OpId>)
    ensures forall op :: op in r <==> op in t && op != Cbrt
    ensures forall op :: op in r ==> r[op] == t[op]
  {
    map op | op in t && op != Cbrt :: t[op]
  }

  /** Where each slot comes in the lookup order. */
  function Rank(op: Op): (i: nat)
    ensures i < |SetOrder| && SetOrder[i] == op
  {
    match op
    case Add => 0 case Subtract => 1 case Multiply => 2 case Divide => 3 case Remainder => 4
    case Divmod => 5 case Power => 6 case Square => 7 case Reciprocal => 8 case OnesLike => 9
    case Sqrt => 10 case Cbrt => 11 case Negative => 12 case Absolute => 13 case Invert => 14
    case LeftShift => 15 case RightShift => 16 case BitwiseAnd => 17 case BitwiseOr => 18
    case BitwiseXor => 19 case Less => 20 case LessEqual => 21 case Equal => 22 case NotEqual => 23
    case Greater => 24 case GreaterEqual => 25 case FloorDivide => 26 case TrueDivide => 27
    case LogicalOr => 28 case LogicalAnd => 29 case Floor => 30 case Ceil => 31 case Maximum => 32
    case Minimum => 33 case Rint => 34 case Conjugate => 35
  }

  predicate AllCallable(dict: map<Op, PyValue>, ops: seq<Op>) {
    forall i :: 0 <= i < |ops| && ops[i] in dict ==> dict[ops[i]].Callable?
  }

  lemma {:induction false} SetFromSucceeds(t: Table, dict: map<Op, PyValue>, ops: seq<Op>)
    requires AllCallable(dict, ops)
    ensures SetFrom(t, dict, ops).0 == Done
    ensures forall k :: k in SetFrom(t, dict, ops).1 <==> k in t || (k in ops && k in dict)
    ensures forall k :: k in SetFrom(t, dict, ops).1 ==>
              SetFrom(t, dict, ops).1[k] == if k in ops && k in dict then dict[k].fn else t[k]
    decreases ops
  {
    if ops != [] {
      var t' := if ops[0] in dict then t[ops[0] := dict[ops[0]].fn] else t;
      var rest := ops[1..];
      assert AllCallable(dict, rest) by {
        forall i | 0 <= i < |rest| && rest[i] in dict ensures dict[rest[i]].Callable? {
          assert rest[i] == ops[i + 1];
        }
      }
      SetFromSucceeds(t', dict, rest);
      assert forall k :: k in ops <==> k == ops[0] || k in rest;
    }
  }

  lemma {:induction false} SetFromFails(t: Table, dict: map<Op, PyValue>, ops: seq<Op>, j: nat)
    requires j < |ops| && ops[j] in dict && dict[ops[j]].NotCallable?
    requires AllCallable(dict, ops[..j])
    ensures SetFrom(t, dict, ops) == (NotCallableValue(ops[j]), SetFrom(t, dict, ops[..j]).1)
    decreases ops
  {
    if j > 0 {
      var t' := if ops[0] in dict then t[ops[0] := dict[ops[0]].fn] else t;
      var rest := ops[1..];
      assert ops[0] == ops[..j][0];
      assert AllCallable(dict, rest[..j - 1]) by {
        forall i | 0 <= i < j - 1 && rest[i] in dict ensures dict[rest[i]].Callable? {
          assert rest[i] == ops[..j][i + 1];
        }
      }
      SetFromFails(t', dict, rest, j - 1);
      assert ops[..j][1..] == rest[..j - 1];
    } else {
      assert ops[..j] == [];
    }
  }

  lemma FirstNotCallable(dict: map<Op, PyValue>, ops: seq<Op>, j: nat)
    requires j < |ops| && ops[j] in dict && dict[ops[j]].NotCallable?
    ensures exists f :: 0 <= f <= j && ops[f] in dict && dict[ops[f]].NotCallable? && AllCallable(dict, ops[..f])
  {
    if !AllCallable(dict, ops[..j]) {
      var i :| 0 <= i < j && ops[..j][i] in dict && !dict[ops[..j][i]].Callable?;
      assert ops[..j][i] == ops[i];
      FirstNotCallable(dict, ops, i);
    }
  }

  predicate DictCallable(dict: map<Op, PyValue>) {
    forall op :: op in dict ==> dict[op].Callable?
  }

  /** Success is every value of the dictionary being callable; then exactly
      the slots the dictionary names are replaced. */
  lemma SetNumericOpsSpec(t: Table, dict: map<Op, PyValue>)
    ensures SetNumericOps(t, dict).0 == 0 <==> DictCallable(dict)
    ensures DictCallable(dict) ==>
              var t' := SetNumericOps(t, dict).1;
              && (forall k :: k in t' <==> k in t || k in dict)
              && (forall k :: k in t' ==> t'[k] == if k in dict then dict[k].fn else t[k])
  {
    forall op ensures op in SetOrder {
      assert SetOrder[Rank(op)] == op;
    }
    if DictCallable(dict) {
      SetFromSucceeds(t, dict, SetOrder);
    } else {
      var op :| op in dict && !dict[op].Callable?;
      var j := Rank(op);
      FirstNotCallable(dict, SetOrder, j);
      var f :| 0 <= f <= j && SetOrder[f] in dict && dict[SetOrder[f]].NotCallable? && AllCallable(dict, SetOrder[..f]);
      SetFromFails(t, dict, SetOrder, f);
    }
  }

  /** On failure the slots before the first non-callable value in the
      lookup order are already replaced, and the others are not. */
  lemma SetNumericOpsPartial(t: Table, dict: map<Op, PyValue>, j: nat)
    requires j < |SetOrder| && SetOrder[j] in dict && dict[SetOrder[j]].NotCallable?
    requires AllCallable(dict, SetOrder[..j])
    ensures SetNumericOps(t, dict).0 == -1
    ensures var t' := SetNumericOps(t, dict).1;
            && (forall k :: k in t' <==> k in t || (k in SetOrder[..j] && k in dict))
            && (forall k :: k in t' ==> t'[k] == if k in SetOrder[..j] && k in dict then dict[k].fn else t[k])
  {
    SetFromFails(t, dict, SetOrder, j);
    SetFromSucceeds(t, dict, SetOrder[..j]);
  }

  function AsDict(m: map<Op, OpId>): map<Op, PyValue> {
    map k | k in m :: Callable(m[k])
  }

  /** Setting what `GetNumericOps` reports succeeds and changes nothing. */
  lemma SetWhatWasGot(t: Table)
    ensures SetNumericOps(t, AsDict(GetNumericOps(t))) == (0, t)
  {
    var dict := AsDict(GetNumericOps(t));
    assert DictCallable(dict);
    SetNumericOpsSpec(t, dict);
    var r := SetNumericOps(t, dict);
    Unchanged(t, dict, r.1);
  }

  lemma Unchanged(t: Table, dict: map<Op, PyValue>, t': Table)
    requires forall k :: k in dict ==> k in t && dict[k] == Callable(t[k])
    requires forall k :: k in t' <==> k in t || k in dict
    requires forall k :: k in t' ==> t'[k] == if k in dict then dict[k].fn else t[k]
    ensures t' == t
  {
    assert t'.Keys == t.Keys;
  }

  /** What was set is reported back, except `cbrt`. */
  lemma GetWhatWasSet(t: Table, dict: map<Op, PyValue>, op: Op)
    requires DictCallable(dict) && op in dict
    ensures op != Cbrt <==> op in GetNumericOps(SetNumericOps(t, dict).1)
    ensures op != Cbrt ==> GetNumericOps(SetNumericOps(t, dict).1)[op] == dict[op].fn
  {
    SetNumericOpsSpec(t, dict);
  }

  // ---------------------------------------------------------------------
  // truth value and scalar conversions

  datatype ConversionError =
    | AmbiguousTruthValue        // ValueError: more than one element
    | ElementError               // the element's own conversion raised
    | OnlyLength1Arrays          // TypeError
    | NotANumber                 // the item has no number methods
    | NoConversion               // the item's type lacks the slot
    | SelfReferencing            // the item is an object array again
    | NotAnIndex                 // TypeError of `__index__`

  /** `_array_nonzero`: the truth of the only element, False for an empty
      array, and an error for more than one element. `element` is None when
      the element's own truth raised. */
  function Nonzero(size: nat, element: Option<bool>): (r: Result<bool, ConversionError>)
    ensures r.Ok? <==> size == 0 || (size == 1 && element.Some?)
    ensures size > 1 ==> r == Err(AmbiguousTruthValue)
  {
    if size == 1 then (if element.Some? then Ok(element.value) else Err(ElementError))
    else if size == 0 then Ok(false)
    else Err(AmbiguousTruthValue)
  }

  predicate Any(xs: seq<bool>) {
    exists i :: 0 <= i < |xs| && xs[i]
  }

  predicate All(xs: seq<bool>) {
    forall i :: 0 <= i < |xs| ==> xs[i]
  }

  /** The truth value of an array, when it has one, is what `a.any()`
      gives, and for one element also `a.all()`. */
  lemma NonzeroIsAny(xs: seq<bool>)
    ensures var r := Nonzero(|xs|, if |xs| == 1 then Some(xs[0]) else None);
            && (r.Ok? <==> |xs| <= 1)
            && (r.Ok? ==> r.value == Any(xs))
            && (|xs| == 1 ==> r.value == All(xs))
  {
  }

  /** What `getitem` returns for the only element, as far as the guards
      look at it, and whether its `nb_int` and `nb_float` calls raise (as
      `int()` of a NaN does). */
  datatype Item = Item(isNumber: bool, hasInt: bool, hasFloat: bool, isReferenceArray: bool,
                       intRaises: bool, floatRaises: bool)

  datatype Slot = NbInt | NbFloat

  /** The converted value: the item passed through its slot. */
  datatype Converted = Converted(item: Item, slot: Slot)

  /** The item has the slot that is asked for. */
  predicate HasSlot(item: Item, slot: Slot) {
    if slot == NbInt then item.hasInt else item.hasFloat
  }

  predicate SlotRaises(item: Item, slot: Slot) {
    if slot == NbInt then item.intRaises else item.floatRaises
  }

  /** Every check `array_int` and `array_float` make before calling the
      slot passes. */
  predicate PassesGuards(size: nat, item: Option<Item>, slot: Slot) {
    size == 1 && item.Some? && item.value.isNumber && HasSlot(item.value, slot) && !item.value.isReferenceArray
  }

  /** `array_int` and `array_float`: only an array of one element converts,
      through the number slot of its item. `item` is None when `getitem`
      failed. */
  function ToScalar(size: nat, item: Option<Item>, slot: Slot): (r: Result<Converted, ConversionError>)
    ensures r.Ok? <==> PassesGuards(size, item, slot) && !SlotRaises(item.value, slot)
    ensures size != 1 ==> r == Err(OnlyLength1Arrays)
    // the element's own failure: `getitem` or the slot call raised
    ensures r == Err(ElementError) <==>
              size == 1 && (item.None? || (PassesGuards(size, item, slot) && SlotRaises(item.value, slot)))
    ensures r.Ok? ==> r.value == Converted(item.value, slot)
  {
    if size != 1 then Err(OnlyLength1Arrays)
    else if item.None? then Err(ElementError)
    else if !item.value.isNumber then Err(NotANumber)
    else if !(if slot == NbInt then item.value.hasInt else item.value.hasFloat) then Err(NoConversion)
    else if item.value.isReferenceArray then Err(SelfReferencing)
    else if (if slot == NbInt then item.value.intRaises else item.value.floatRaises) then Err(ElementError)
    else Ok(Converted(item.value, slot))
  }

  /** `array_index`: only a 0-d integer array is an index. */
  function ToIndex(isInteger: bool, shape: seq<nat>, value: int): (r: Result<int, ConversionError>)
    ensures r.Ok? <==> isInteger && shape == []
    ensures r.Ok? ==> r.value == value
  {
    if !isInteger || |shape| != 0 then Err(NotAnIndex) else Ok(value)
  }

  // ---------------------------------------------------------------------
  // power

  /** The right operand of `**`, as `is_scalar_with_conversion` sees it.
      `converts` says whether its `__float__` succeeded. */
  datatype Operand =
    | PyInt(i: int)
    | PyFloat(x: real)
    | ArrayOperand(ndim: nat, isInteger: bool, isFloat: bool, converts: bool, value: real)
    | IntegerScalar(converts: bool, value: real)
    | FloatingScalar(converts: bool, value: real)
    | IndexLike(index: Option<int>)
    | OtherOperand

  datatype ScalarKind = NoScalar | IntPosScalar | FloatScalar

  /** `is_scalar_with_conversion`: the kind of the exponent, and its value
      as a number. */
  function ScalarWithConversion(o: Operand): (r: (ScalarKind, real))
    ensures r.0 == IntPosScalar ==> !o.PyFloat? && !o.FloatingScalar?
  {
    match o
    case PyInt(i) => (IntPosScalar, i as real)
    case PyFloat(x) => (FloatScalar, x)
    case ArrayOperand(ndim, isInteger, isFloat, converts, value) =>
      if ndim == 0 && (isInteger || isFloat) then
        (if !converts then (NoScalar, 0.0) else if isInteger then (IntPosScalar, value) else (FloatScalar, value))
      else (NoScalar, 0.0)
    case IntegerScalar(converts, value) => if converts then (IntPosScalar, value) else (NoScalar, 0.0)
    case FloatingScalar(converts, value) => if converts then (FloatScalar, value) else (NoScalar, 0.0)
    case IndexLike(index) => if index.Some? then (IntPosScalar, index.value as real) else (NoScalar, 0.0)
    case OtherOperand => (NoScalar, 0.0)
  }

  /** The kind of the array on the left. */
  datatype ArrayKind = FloatArray | ComplexArray | IntegerArray | OtherArray

  /** The outcome of `fast_scalar_power`: no fast path, the array itself or
      a copy of it, or the ufunc of one slot of the table, applied in place
      or not, after a cast to double or not. */
  datatype Fast =
    | NoFastPath
    | SameArray
    | CopyOf
    | Unary(op: Op, inplace: bool, castToDouble: bool)

  /** `fast_scalar_power` for an array of kind `a` and exponent `o2`.
      `canElide` is what `can_elide_temp_unary` says of the array. */
  function FastScalarPower(a: ArrayKind, o2: Operand, inplace: bool, canElide: bool): (r: Fast)
    ensures r.CopyOf? ==> !inplace
    ensures r.SameArray? ==> inplace
    ensures r.Unary? ==> r.op in {Reciprocal, OnesLike, Sqrt, Square}
    ensures r.Unary? && r.castToDouble ==> a == IntegerArray && !inplace && r.inplace && r.op == Square
  {
    var (kind, e) := ScalarWithConversion(o2);
    if kind == NoScalar then NoFastPath
    else if a == FloatArray || a == ComplexArray then
      if e == 1.0 then (if inplace then SameArray else CopyOf)
      else
        var op := if e == -1.0 then Some(Reciprocal)
                  else if e == 0.0 then Some(OnesLike)
                  else if e == 0.5 then Some(Sqrt)
                  else if e == 2.0 then Some(Square)
                  else None;
        if op.None? then NoFastPath else Unary(op.value, inplace || canElide, false)
    else if e == 2.0 then
      if inplace then Unary(Square, true, false)
      else if kind == FloatScalar && a == IntegerArray then Unary(Square, true, true)
      else Unary(Square, false, false)
    else NoFastPath
  }

  /** Which exponents have a fast path: 1, -1, 0, 0.5 and 2 for float and
      complex arrays, only 2 for the others. */
  lemma FastPathExponents(a: ArrayKind, o2: Operand, inplace: bool, canElide: bool)
    ensures var (kind, e) := ScalarWithConversion(o2);
            var inexact := a == FloatArray || a == ComplexArray;
            !FastScalarPower(a, o2, inplace, canElide).NoFastPath? <==>
              kind != NoScalar && (e == 2.0 || (inexact && e in {1.0, -1.0, 0.0, 0.5}))
  {
  }

  /** The value of one element after a fast path, next to `x ** e` for the
      integral exponents. */
  function ApplyFast(f: Fast, x: real): real
    requires f.Unary? ==> f.op in {Reciprocal, OnesLike, Square}
    requires f.Unary? && f.op == Reciprocal ==> x != 0.0
  {
    match f
    case NoFastPath => x
    case SameArray => x
    case CopyOf => x
    case Unary(op, _, _) =>
      if op == Reciprocal then 1.0 / x
      else if op == OnesLike then 1.0
      else if op == Square then x * x
      else x
  }

  /** `x ** n` for an integer `n`. */
  function IntPower(x: real, n: int): real
    requires n >= 0 || x != 0.0
    decreases if n >= 0 then n else -n
  {
    if n == 0 then 1.0
    else if n > 0 then x * IntPower(x, n - 1)
    else IntPower(x, n + 1) / x
  }

  /** For the integral exponents, the fast path computes the power. */
  lemma FastPathIsPower(a: ArrayKind, n: int, inplace: bool, canElide: bool, x: real)
    requires n in {-1, 0, 1, 2} && x != 0.0
    requires FastScalarPower(a, PyInt(n), inplace, canElide) != NoFastPath
    ensures ApplyFast(FastScalarPower(a, PyInt(n), inplace, canElide), x) == IntPower(x, n)
  {
    assert IntPower(x, 1) == x * 1.0;
    assert IntPower(x, 2) == x * (x * 1.0);
    assert IntPower(x, -1) == 1.0 / x;
  }

  datatype PowerResult = NotImplemented | FastResult(fast: Fast) | GenericPower

  /** `array_power`: a modulo gives NotImplemented, as does an operand that
      the binary-operator rules defer to; otherwise the fast path, or the
      `power` ufunc when there is none. */
  function ArrayPower(a: ArrayKind, o2: Operand, hasModulo: bool, deferToOther: bool, canElide: bool): (r: PowerResult)
    ensures hasModulo ==> r == NotImplemented
    ensures r.FastResult? ==> !r.fast.NoFastPath? && !r.fast.SameArray?
    ensures !hasModulo && !deferToOther ==> (r == GenericPower <==> FastScalarPower(a, o2, false, canElide) == NoFastPath)
  {
    if hasModulo || deferToOther then NotImplemented
    else
      var fast := FastScalarPower(a, o2, false, canElide);
      if fast.NoFastPath? then GenericPower else FastResult(fast)
  }
}
