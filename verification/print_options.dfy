/**
 * The print options of `numpy/core/arrayprint.py`: `_make_options_dict`,
 * `set_printoptions`, the option merge of `array2string`, and the
 * precedence of user formatters in `_get_formatdict`.
 */
module PrintOptions {
  import opened Wrappers

  /** A user formatting callable, by identity. */
  type FnId = nat

  /** The `formatter` dict: keys map to a callable or to None. */
  type Formatter = map<string, Option<FnId>>

  datatype Options = Options(
    precision: int,
    threshold: int,
    edgeitems: int,
    linewidth: int,
    suppress: bool,
    nanstr: string,
    infstr: string,
    sign: string,
    formatter: Option<Formatter>)

  /** The module-level defaults. */
  const DefaultOptions := Options(8, 1000, 3, 75, false, "nan", "inf", "-", None)

  /** The keyword arguments; None is "not passed". `suppress` is given by
      its truth value, which is what `bool(suppress)` keeps. */
  datatype Args = Args(
    precision: Option<int>,
    threshold: Option<int>,
    edgeitems: Option<int>,
    linewidth: Option<int>,
    suppress: Option<bool>,
    nanstr: Option<string>,
    infstr: Option<string>,
    sign: Option<string>,
    formatter: Option<Formatter>)

  datatype OptionsError = BadSign(sign: string)

  predicate SignAllowed(sign: Option<string>) {
    sign.None? || sign.value in {"-", "+", " ", "legacy"}
  }

  /** `_make_options_dict`: the arguments that were passed, once `sign` is
      checked. The result keeps None for the arguments that were not. */
  function MakeOptionsDict(a: Args): (r: Result<Args, OptionsError>)
    ensures r.Ok? <==> SignAllowed(a.sign)
    ensures r.Err? ==> r.error == BadSign(a.sign.value)
    ensures r.Ok? ==> r.value == a
  {
    if a.sign.Some? && a.sign.value !in {"-", "+", " ", "legacy"} then Err(BadSign(a.sign.value))
    else Ok(a)
  }

  function Pick<T>(given: Option<T>, current: T): T {
    if given.Some? then given.value else current
  }

  /** `dict.update` with the passed arguments: each passed option replaces
      the current one, and every option not passed is kept. */
  function Update(o: Options, a: Args): (r: Options)
    ensures r.precision == if a.precision.Some? then a.precision.value else o.precision
    ensures r.threshold == if a.threshold.Some? then a.threshold.value else o.threshold
    ensures r.edgeitems == if a.edgeitems.Some? then a.edgeitems.value else o.edgeitems
    ensures r.linewidth == if a.linewidth.Some? then a.linewidth.value else o.linewidth
    ensures r.suppress == if a.suppress.Some? then a.suppress.value else o.suppress
    ensures r.nanstr == if a.nanstr.Some? then a.nanstr.value else o.nanstr
    ensures r.infstr == if a.infstr.Some? then a.infstr.value else o.infstr
    ensures r.sign == if a.sign.Some? then a.sign.value else o.sign
    ensures r.formatter == if a.formatter.Some? then a.formatter else o.formatter
    // nothing passed changes nothing
    ensures a == Args(None, None, None, None, None, None, None, None, None) ==> r == o
  {
    Options(
      Pick(a.precision, o.precision), Pick(a.threshold, o.threshold), Pick(a.edgeitems, o.edgeitems),
      Pick(a.linewidth, o.linewidth), Pick(a.suppress, o.suppress), Pick(a.nanstr, o.nanstr),
      Pick(a.infstr, o.infstr), Pick(a.sign, o.sign),
      if a.formatter.Some? then a.formatter else o.formatter)
  }

  /** `set_printoptions`: the passed options replace the current ones, and
      `formatter` is replaced whether passed or not. A bad `sign` raises
      before anything changes. */
  function SetPrintoptions(current: Options, a: Args): (r: Result<Options, OptionsError>)
    ensures r.Ok? <==> SignAllowed(a.sign)
    ensures r.Ok? ==> r.value.formatter == a.formatter
    ensures r.Ok? ==> r.value.(formatter := None) == Update(current, a).(formatter := None)
  {
    var opt :- MakeOptionsDict(a);
    Ok(Update(current, opt).(formatter := opt.formatter))
  }

  /** `array2string`: the options of one call are the global ones with the
      passed ones on top; `nanstr` and `infstr` cannot be passed. */
  function Array2StringOptions(global: Options, a: Args): (r: Result<Options, OptionsError>)
    ensures r.Ok? <==> SignAllowed(a.sign)
    ensures r.Err? ==> r.error == BadSign(a.sign.value)
    // the passed options on top of the global ones, except that `nanstr`
    // and `infstr` always stay global
    ensures r.Ok? ==> r.value == Update(global, a).(nanstr := global.nanstr, infstr := global.infstr)
  {
    var overrides :- MakeOptionsDict(a.(nanstr := None, infstr := None));
    Ok(Update(global, overrides))
  }

  /** `array2string` keeps the global formatter when none is passed, where
      `set_printoptions` resets it; every other option behaves the same. */
  lemma FormatterResetOnlyBySet(global: Options, a: Args)
    requires SignAllowed(a.sign) && a.formatter.None? && a.nanstr.None? && a.infstr.None?
    ensures Array2StringOptions(global, a).value.formatter == global.formatter
    ensures SetPrintoptions(global, a).value.formatter == None
    ensures Array2StringOptions(global, a).value.(formatter := None) == SetPrintoptions(global, a).value
  {
    assert a.(nanstr := None, infstr := None) == a;
  }

  /** Setting the same options twice is setting them once. */
  lemma SetIdempotent(current: Options, a: Args)
    requires SignAllowed(a.sign)
    ensures SetPrintoptions(SetPrintoptions(current, a).value, a) == SetPrintoptions(current, a)
  {
  }

  // ---------------------------------------------------------------------
  // _get_formatdict

  /** The keys of the format table, in the source's order. */
  const FormatKeys: seq<string> := ["bool", "int", "float", "longfloat", "complexfloat",
    "longcomplexfloat", "datetime", "timedelta", "object", "numpystr", "str"]

  /** The group key that also sets `key`, if any. */
  function KindOf(key: string): Option<string> {
    if key == "int" then Some("int_kind")
    else if key in {"float", "longfloat"} then Some("float_kind")
    else if key in {"complexfloat", "longcomplexfloat"} then Some("complex_kind")
    else if key in {"numpystr", "str"} then Some("str_kind")
    else None
  }

  /** A formatter for `key`: the built-in one or a user callable. */
  datatype Choice = Builtin(key: string) | User(fn: FnId)

  type FormatDict = map<string, Choice>

  /** The keys of the user formatter whose value is not None. */
  predicate Given(f: Formatter, k: string) {
    k in f && f[k].Some?
  }

  function Builtins(): (d: FormatDict)
    ensures d.Keys == set k | k in FormatKeys
  {
    map k | k in FormatKeys :: Builtin(k)
  }

  /** Every key of `keys` that the table has gets the callable of `from`. */
  function SetKeys(d: FormatDict, keys: set<string>, f: Formatter, from: string): (r: FormatDict)
    requires Given(f, from)
    ensures r.Keys == d.Keys
    ensures forall k :: k in r ==> r[k] == if k in keys then User(f[from].value) else d[k]
  {
    map k | k in d :: if k in keys then User(f[from].value) else d[k]
  }

  function SetIfGiven(d: FormatDict, keys: set<string>, f: Formatter, from: string): (r: FormatDict)
    ensures r.Keys == d.Keys
  {
    if Given(f, from) then SetKeys(d, keys, f, from) else d
  }

  /** `_get_formatdict`: 'all' first, then the kind groups, then the keys
      themselves, each overwriting the one before. */
  function GetFormatdict(formatter: Option<Formatter>): (r: FormatDict)
    ensures r.Keys == set k | k in FormatKeys
    ensures formatter.None? ==> r == Builtins()
  {
    var d := Builtins();
    if formatter.None? then d
    else
      var f := formatter.value;
      var d1 := SetIfGiven(d, d.Keys, f, "all");
      var d2 := SetIfGiven(d1, {"int"}, f, "int_kind");
      var d3 := SetIfGiven(d2, {"float", "longfloat"}, f, "float_kind");
      var d4 := SetIfGiven(d3, {"complexfloat", "longcomplexfloat"}, f, "complex_kind");
      var d5 := SetIfGiven(d4, {"numpystr", "str"}, f, "str_kind");
      map k | k in d5 :: if Given(f, k) then User(f[k].value) else d5[k]
  }

  /** The most specific given formatter wins: the key's own, then its
      kind's, then 'all', then the built-in one. */
  function MostSpecific(f: Formatter, key: string): Choice {
    if Given(f, key) then User(f[key].value)
    else if KindOf(key).Some? && Given(f, KindOf(key).value) then User(f[KindOf(key).value].value)
    else if Given(f, "all") then User(f["all"].value)
    else Builtin(key)
  }

  /** The groups of `_get_formatdict` are the kinds of `KindOf`. */
  lemma KindGroups(key: string)
    ensures key in {"int"} <==> KindOf(key) == Some("int_kind")
    ensures key in {"float", "longfloat"} <==> KindOf(key) == Some("float_kind")
    ensures key in {"complexfloat", "longcomplexfloat"} <==> KindOf(key) == Some("complex_kind")
    ensures key in {"numpystr", "str"} <==> KindOf(key) == Some("str_kind")
  {
  }

  lemma SetIfGivenAt(d: FormatDict, keys: set<string>, f: Formatter, from: string, key: string)
    requires key in d
    ensures key in SetIfGiven(d, keys, f, from)
    ensures SetIfGiven(d, keys, f, from)[key] ==
              if Given(f, from) && key in keys then User(f[from].value) else d[key]
  {
  }

  lemma FormatdictPrecedence(f: Formatter, key: string)
    requires key in FormatKeys
    ensures GetFormatdict(Some(f))[key] == MostSpecific(f, key)
  {
    var d := Builtins();
    var d1 := SetIfGiven(d, d.Keys, f, "all");
    var d2 := SetIfGiven(d1, {"int"}, f, "int_kind");
    var d3 := SetIfGiven(d2, {"float", "longfloat"}, f, "float_kind");
    var d4 := SetIfGiven(d3, {"complexfloat", "longcomplexfloat"}, f, "complex_kind");
    var d5 := SetIfGiven(d4, {"numpystr", "str"}, f, "str_kind");
    SetIfGivenAt(d, d.Keys, f, "all", key);
    SetIfGivenAt(d1, {"int"}, f, "int_kind", key);
    SetIfGivenAt(d2, {"float", "longfloat"}, f, "float_kind", key);
    SetIfGivenAt(d3, {"complexfloat", "longcomplexfloat"}, f, "complex_kind", key);
    SetIfGivenAt(d4, {"numpystr", "str"}, f, "str_kind", key);
    KindGroups(key);
    var below := if Given(f, "all") then User(f["all"].value) else Builtin(key);
    assert d1[key] == below;
    assert d5[key] == if KindOf(key).Some? && Given(f, KindOf(key).value) then User(f[KindOf(key).value].value) else below;
  }
}
