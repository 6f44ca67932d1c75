/** Construction of formatters from a name and `key=value` arguments:
    `new_formatter` and `EngFixConfig::from_args`.

    Each parser is specified by a left-to-right fold (`ParseArgs`) of a
    per-argument step; the methods `NewFormatter` and `EngFixFromArgs` are
    the loops of the source, proved equal to the fold.  The lemmas then say
    what the fold means: unknown names and keys are rejected, the first
    rejected argument decides the error, absent keys keep their defaults and
    the last occurrence of a key wins. */
module FormatterArgs {
  import opened Wrappers
  import opened Values
  import opened FormatterTypes

  /** One `key=value` argument of a format specification. */
  datatype Arg = Arg(key: string, val: string)

  /** The `FromStr` parsers the source calls through `arg.val.parse()`;
      `None` is a parse failure.  Floats may parse to an infinity or NaN. */
  datatype Parsers = Parsers(
    usize: string -> Option<Usize>,
    float: string -> Option<F64>,
    boolean: string -> Option<bool>,
    unit: string -> Option<Unit>,
    prefix: string -> Option<Prefix>)

  /** Errors raised while building a formatter. */
  datatype ConfigError =
    | UnknownFormatter(name: string)
    | UnknownArgument(formatter: string, key: string)
    | InvalidValue(message: string)
    | InvalidUnit(text: string)
    | InvalidPrefix(text: string)
    | MaxWidthBelowMinWidth
    | IntervalTooSmall

  const WIDTH_MESSAGE := "Width must be a positive integer"
  const PANGO_MESSAGE := "pango must be true or false"
  const INTERVAL_MESSAGE := "Interval must be a positive number"
  const MAX_VALUE_MESSAGE := "Max value must be a number"
  const HIDE_UNIT_MESSAGE := "hide_unit must be true or false"
  const UNIT_SPACE_MESSAGE := "unit_space must be true or false"
  const HIDE_PREFIX_MESSAGE := "hide_prefix must be true or false"
  const PREFIX_SPACE_MESSAGE := "prefix_space must be true or false"
  const FORCE_PREFIX_MESSAGE := "force_prefix must be true or false"

  const FORMATTER_NAMES: set<string> := {"str", "bar", "eng", "fix"}

  const MIN_WIDTH_KEYS: set<string> := {"min_width", "min_w"}
  const MAX_WIDTH_KEYS: set<string> := {"max_width", "max_w"}
  const WIDTH_KEYS: set<string> := {"width", "w"}
  const UNIT_KEYS: set<string> := {"unit", "u"}
  const PREFIX_KEYS: set<string> := {"prefix", "p"}

  // ---------------------------------------------------------------------
  // The fold shared by the three parsers

  /** Applies `step` to the arguments from left to right, stopping at the
      first failure. */
  function ParseArgs<S>(args: seq<Arg>, acc: S, step: (S, Arg) -> Result<S, ConfigError>)
    : Result<S, ConfigError>
    decreases |args|
  {
    if args == [] then Success(acc)
    else
      match step(acc, args[0])
      case Failure(e) => Failure(e)
      case Success(next) => ParseArgs(args[1..], next, step)
  }

  /** One unfolding of the fold at position `i`. */
  lemma ParseArgsAt<S>(args: seq<Arg>, i: nat, acc: S, step: (S, Arg) -> Result<S, ConfigError>)
    requires i < |args|
    ensures ParseArgs(args[i..], acc, step) ==
      match step(acc, args[i])
      case Failure(e) => Failure(e)
      case Success(next) => ParseArgs(args[i + 1..], next, step)
  {
    assert args[i..][1..] == args[i + 1..];
  }

  /** Every step before position `k` succeeds and the step at `k` fails with
      `e` whatever the state: then the whole parse fails with `e`. */
  lemma {:induction false} ParseStopsAtFirstFailure<S>(
    args: seq<Arg>, acc: S, step: (S, Arg) -> Result<S, ConfigError>, k: nat, e: ConfigError)
    requires k < |args|
    requires forall j, s :: 0 <= j < k ==> step(s, args[j]).Success?
    requires forall s :: step(s, args[k]) == Failure(e)
    ensures ParseArgs(args, acc, step) == Failure(e)
  {
    if k > 0 {
      var next := step(acc, args[0]).value;
      forall j, s | 0 <= j < k - 1 ensures step(s, args[1..][j]).Success? {
        assert args[1..][j] == args[j + 1];
      }
      assert args[1..][k - 1] == args[k];
      ParseStopsAtFirstFailure(args[1..], next, step, k - 1, e);
    }
  }

  /** The value of the last argument whose key is one of `keys`. */
  function LastValue(args: seq<Arg>, keys: set<string>): Option<string>
    decreases |args|
  {
    if args == [] then None
    else
      match LastValue(args[1..], keys)
      case Some(v) => Some(v)
      case None => if args[0].key in keys then Some(args[0].val) else None
  }

  /** The parse of the last value given under one of `keys`, if any. */
  function LastParsed<T>(args: seq<Arg>, keys: set<string>, parse: string -> Option<T>): Option<T> {
    match LastValue(args, keys)
    case None => None
    case Some(v) => parse(v)
  }

  /** Peeling off the first argument: a later occurrence overrides it. */
  lemma LastParsedCons<T>(args: seq<Arg>, keys: set<string>, parse: string -> Option<T>, d: T, od: Option<T>)
    requires args != []
    requires forall j :: 0 <= j < |args| && args[j].key in keys ==> parse(args[j].val).Some?
    ensures LastParsed(args, keys, parse).GetOr(d)
         == LastParsed(args[1..], keys, parse).GetOr(if args[0].key in keys then parse(args[0].val).value else d)
    ensures OrElse(LastParsed(args, keys, parse), od)
         == OrElse(LastParsed(args[1..], keys, parse), if args[0].key in keys then parse(args[0].val) else od)
  {
    match LastValue(args[1..], keys)
    case Some(v) =>
      assert LastValue(args, keys) == Some(v);
      LastValueIsLast(args[1..], keys);
      var j :| 0 <= j < |args[1..]| && args[1..][j].key in keys && args[1..][j].val == v;
      assert args[j + 1] == args[1..][j];
    case None =>
      assert LastValue(args, keys) == if args[0].key in keys then Some(args[0].val) else None;
  }

  /** `LastValue` finds the last matching argument and no later one. */
  lemma {:induction false} LastValueIsLast(args: seq<Arg>, keys: set<string>)
    ensures LastValue(args, keys).None? <==> forall j :: 0 <= j < |args| ==> args[j].key !in keys
    ensures LastValue(args, keys).Some? ==>
      exists j :: 0 <= j < |args| && args[j].key in keys && args[j].val == LastValue(args, keys).value
        && forall i :: j < i < |args| ==> args[i].key !in keys
    decreases |args|
  {
    if args != [] {
      LastValueIsLast(args[1..], keys);
      if LastValue(args[1..], keys).Some? {
        var j :| 0 <= j < |args[1..]| && args[1..][j].key in keys
          && args[1..][j].val == LastValue(args[1..], keys).value
          && forall i :: j < i < |args[1..]| ==> args[1..][i].key !in keys;
        assert args[j + 1] == args[1..][j];
        forall i | j + 1 < i < |args| ensures args[i].key !in keys {
          assert args[i] == args[1..][i - 1];
        }
      } else {
        forall j | 1 <= j < |args| ensures args[j].key !in keys {
          assert args[j] == args[1..][j - 1];
        }
      }
    }
  }

  /** `o` if it holds a value, `d` otherwise. */
  function OrElse<T>(o: Option<T>, d: Option<T>): Option<T> {
    if o.Some? then o else d
  }

  // ---------------------------------------------------------------------
  // `str`

  /** The settings `new_formatter` collects for `str` before its checks. */
  datatype StrSettings = StrSettings(
    minWidth: Usize, maxWidth: Usize, pango: bool, rotInterval: Option<F64>)

  const STR_DEFAULTS: StrSettings :=
    StrSettings(DEFAULT_STR_MIN_WIDTH, DEFAULT_STR_MAX_WIDTH, DEFAULT_STR_PANGO, DEFAULT_STR_ROT_INTERVAL)

  /** One iteration of the `str` argument loop. */
  function StrStep(acc: StrSettings, arg: Arg, p: Parsers): Result<StrSettings, ConfigError> {
    if arg.key in MIN_WIDTH_KEYS then
      match p.usize(arg.val)
      case None => Failure(InvalidValue(WIDTH_MESSAGE))
      case Some(n) => Success(acc.(minWidth := n))
    else if arg.key in MAX_WIDTH_KEYS then
      match p.usize(arg.val)
      case None => Failure(InvalidValue(WIDTH_MESSAGE))
      case Some(n) => Success(acc.(maxWidth := n))
    else if arg.key == "pango" then
      match p.boolean(arg.val)
      case None => Failure(InvalidValue(PANGO_MESSAGE))
      case Some(b) => Success(acc.(pango := b))
    else if arg.key == "rot_interval" then
      match p.float(arg.val)
      case None => Failure(InvalidValue(INTERVAL_MESSAGE))
      case Some(x) => Success(acc.(rotInterval := Some(x)))
    else
      Failure(UnknownArgument("str", arg.key))
  }

  function StrStepper(p: Parsers): (StrSettings, Arg) -> Result<StrSettings, ConfigError> {
    (acc, arg) => StrStep(acc, arg, p)
  }

  /** An argument `str` accepts: a known key whose value parses. */
  predicate StrAccepts(a: Arg, p: Parsers) {
    (a.key in MIN_WIDTH_KEYS && p.usize(a.val).Some?)
    || (a.key in MAX_WIDTH_KEYS && p.usize(a.val).Some?)
    || (a.key == "pango" && p.boolean(a.val).Some?)
    || (a.key == "rot_interval" && p.float(a.val).Some?)
  }

  /** The error `str` reports for an argument it does not accept. */
  function StrRejection(a: Arg): ConfigError {
    if a.key in MIN_WIDTH_KEYS + MAX_WIDTH_KEYS then InvalidValue(WIDTH_MESSAGE)
    else if a.key == "pango" then InvalidValue(PANGO_MESSAGE)
    else if a.key == "rot_interval" then InvalidValue(INTERVAL_MESSAGE)
    else UnknownArgument("str", a.key)
  }

  lemma StrStepAccepts(acc: StrSettings, a: Arg, p: Parsers)
    ensures StrStepper(p)(acc, a).Success? <==> StrAccepts(a, p)
    ensures !StrAccepts(a, p) ==> StrStepper(p)(acc, a) == Failure(StrRejection(a))
  {
  }

  /** `(x * 1e3) as u64`: a saturating float-to-unsigned cast, which sends
      NaN and values at most 0 to 0 and values beyond the range to
      `u64::MAX`. */
  function IntervalMs(seconds: F64): (ms: nat)
    ensures ms <= U64_MAX
    ensures ms == 0 <==> !AtLeast(seconds, 0.001)
    ensures AtLeast(seconds, 0.1) ==> ms >= 100
  {
    match seconds
    case Finite(x) =>
      if x <= 0.0 then 0
      else
        var m := (x * 1000.0).Floor;
        if m >= U64_MAX then U64_MAX else m
    case PosInf => U64_MAX
    case _ => 0
  }

  /** The `str` formatter built once the checks pass: the interval in
      milliseconds and the creation time. */
  function StrOf(s: StrSettings, now: nat): Formatter {
    Str(StrFormatter(
      s.minWidth, s.maxWidth, s.pango,
      if s.rotInterval.Some? then Some(IntervalMs(s.rotInterval.value)) else None,
      Some(now)))
  }

  /** The checks after the `str` argument loop as the source writes them:
      `rot_interval < 0.1` is false for NaN, so NaN is let through. */
  function BuildStrAsWritten(s: StrSettings, now: nat): Result<Formatter, ConfigError> {
    if s.maxWidth < s.minWidth then Failure(MaxWidthBelowMinWidth)
    else if s.rotInterval.Some? && LessThan(s.rotInterval.value, 0.1) then Failure(IntervalTooSmall)
    else Success(StrOf(s, now))
  }

  /** The checks after the `str` argument loop as intended: an interval is
      accepted only when it is at least 0.1 s.  This differs from the source
      only for NaN, which it rejects, so every interval it builds is at least
      100 ms. */
  function BuildStr(s: StrSettings, now: nat): (r: Result<Formatter, ConfigError>)
    ensures r.Success? ==> r.value.Str?
    ensures r.Success? && r.value.str.rotIntervalMs.Some? ==> r.value.str.rotIntervalMs.value >= 100
    ensures r != BuildStrAsWritten(s, now) <==>
      s.minWidth <= s.maxWidth && s.rotInterval == Some(NaN)
    ensures r != BuildStrAsWritten(s, now) ==> r == Failure(IntervalTooSmall)
  {
    if s.maxWidth < s.minWidth then Failure(MaxWidthBelowMinWidth)
    else if s.rotInterval.Some? && !AtLeast(s.rotInterval.value, 0.1) then Failure(IntervalTooSmall)
    else Success(StrOf(s, now))
  }

  // ---------------------------------------------------------------------
  // `bar`

  const BAR_DEFAULTS: BarFormatter := BarFormatter(DEFAULT_BAR_WIDTH, DEFAULT_BAR_MAX_VAL)

  /** One iteration of the `bar` argument loop. */
  function BarStep(acc: BarFormatter, arg: Arg, p: Parsers): Result<BarFormatter, ConfigError> {
    if arg.key in WIDTH_KEYS then
      match p.usize(arg.val)
      case None => Failure(InvalidValue(WIDTH_MESSAGE))
      case Some(n) => Success(acc.(width := n))
    else if arg.key == "max_value" then
      match p.float(arg.val)
      case None => Failure(InvalidValue(MAX_VALUE_MESSAGE))
      case Some(x) => Success(acc.(maxValue := x))
    else
      Failure(UnknownArgument("bar", arg.key))
  }

  function BarStepper(p: Parsers): (BarFormatter, Arg) -> Result<BarFormatter, ConfigError> {
    (acc, arg) => BarStep(acc, arg, p)
  }

  predicate BarAccepts(a: Arg, p: Parsers) {
    (a.key in WIDTH_KEYS && p.usize(a.val).Some?)
    || (a.key == "max_value" && p.float(a.val).Some?)
  }

  function BarRejection(a: Arg): ConfigError {
    if a.key in WIDTH_KEYS then InvalidValue(WIDTH_MESSAGE)
    else if a.key == "max_value" then InvalidValue(MAX_VALUE_MESSAGE)
    else UnknownArgument("bar", a.key)
  }

  lemma BarStepAccepts(acc: BarFormatter, a: Arg, p: Parsers)
    ensures BarStepper(p)(acc, a).Success? <==> BarAccepts(a, p)
    ensures !BarAccepts(a, p) ==> BarStepper(p)(acc, a) == Failure(BarRejection(a))
  {
  }

  // ---------------------------------------------------------------------
  // `eng` and `fix`

  /** One iteration of the loop of `EngFixConfig::from_args`. */
  function EngFixStep(acc: EngFixConfig, arg: Arg, p: Parsers): Result<EngFixConfig, ConfigError> {
    if arg.key in WIDTH_KEYS then
      match p.usize(arg.val)
      case None => Failure(InvalidValue(WIDTH_MESSAGE))
      case Some(n) => Success(acc.(width := n))
    else if arg.key in UNIT_KEYS then
      match p.unit(arg.val)
      case None => Failure(InvalidUnit(arg.val))
      case Some(u) => Success(acc.(unit := Some(u)))
    else if arg.key == "hide_unit" then
      match p.boolean(arg.val)
      case None => Failure(InvalidValue(HIDE_UNIT_MESSAGE))
      case Some(b) => Success(acc.(unitHidden := b))
    else if arg.key == "unit_space" then
      match p.boolean(arg.val)
      case None => Failure(InvalidValue(UNIT_SPACE_MESSAGE))
      case Some(b) => Success(acc.(unitHasSpace := b))
    else if arg.key in PREFIX_KEYS then
      match p.prefix(arg.val)
      case None => Failure(InvalidPrefix(arg.val))
      case Some(q) => Success(acc.(prefix := Some(q)))
    else if arg.key == "hide_prefix" then
      match p.boolean(arg.val)
      case None => Failure(InvalidValue(HIDE_PREFIX_MESSAGE))
      case Some(b) => Success(acc.(prefixHidden := b))
    else if arg.key == "prefix_space" then
      match p.boolean(arg.val)
      case None => Failure(InvalidValue(PREFIX_SPACE_MESSAGE))
      case Some(b) => Success(acc.(prefixHasSpace := b))
    else if arg.key == "force_prefix" then
      match p.boolean(arg.val)
      case None => Failure(InvalidValue(FORCE_PREFIX_MESSAGE))
      case Some(b) => Success(acc.(prefixForced := b))
    else
      Failure(UnknownArgument("fix/eng", arg.key))
  }

  function EngFixStepper(p: Parsers): (EngFixConfig, Arg) -> Result<EngFixConfig, ConfigError> {
    (acc, arg) => EngFixStep(acc, arg, p)
  }

  const ENG_FIX_FLAG_KEYS: set<string> :=
    {"hide_unit", "unit_space", "hide_prefix", "prefix_space", "force_prefix"}

  predicate EngFixAccepts(a: Arg, p: Parsers) {
    (a.key in WIDTH_KEYS && p.usize(a.val).Some?)
    || (a.key in UNIT_KEYS && p.unit(a.val).Some?)
    || (a.key in PREFIX_KEYS && p.prefix(a.val).Some?)
    || (a.key in ENG_FIX_FLAG_KEYS && p.boolean(a.val).Some?)
  }

  function EngFixRejection(a: Arg): ConfigError {
    if a.key in WIDTH_KEYS then InvalidValue(WIDTH_MESSAGE)
    else if a.key in UNIT_KEYS then InvalidUnit(a.val)
    else if a.key in PREFIX_KEYS then InvalidPrefix(a.val)
    else if a.key == "hide_unit" then InvalidValue(HIDE_UNIT_MESSAGE)
    else if a.key == "unit_space" then InvalidValue(UNIT_SPACE_MESSAGE)
    else if a.key == "hide_prefix" then InvalidValue(HIDE_PREFIX_MESSAGE)
    else if a.key == "prefix_space" then InvalidValue(PREFIX_SPACE_MESSAGE)
    else if a.key == "force_prefix" then InvalidValue(FORCE_PREFIX_MESSAGE)
    else UnknownArgument("fix/eng", a.key)
  }

  lemma EngFixStepAccepts(acc: EngFixConfig, a: Arg, p: Parsers)
    ensures EngFixStepper(p)(acc, a).Success? <==> EngFixAccepts(a, p)
    ensures !EngFixAccepts(a, p) ==> EngFixStepper(p)(acc, a) == Failure(EngFixRejection(a))
  {
  }

  /** An accepted `eng`/`fix` argument parses under the parser of its key. */
  lemma EngFixAcceptedParses(a: Arg, p: Parsers)
    requires EngFixAccepts(a, p)
    ensures a.key in WIDTH_KEYS ==> p.usize(a.val).Some?
    ensures a.key in UNIT_KEYS ==> p.unit(a.val).Some?
    ensures a.key in PREFIX_KEYS ==> p.prefix(a.val).Some?
    ensures a.key in ENG_FIX_FLAG_KEYS ==> p.boolean(a.val).Some?
  {
  }

  /** The new configuration after one accepted argument: only the field the
      key names changes. */
  lemma EngFixStepUpdates(acc: EngFixConfig, a: Arg, p: Parsers)
    requires EngFixAccepts(a, p)
    ensures EngFixAccepts(a, p) && EngFixStep(acc, a, p) == Success(EngFixConfig(
      if a.key in WIDTH_KEYS then p.usize(a.val).value else acc.width,
      if a.key in UNIT_KEYS then p.unit(a.val) else acc.unit,
      if a.key in {"unit_space"} then p.boolean(a.val).value else acc.unitHasSpace,
      if a.key in {"hide_unit"} then p.boolean(a.val).value else acc.unitHidden,
      if a.key in PREFIX_KEYS then p.prefix(a.val) else acc.prefix,
      if a.key in {"prefix_space"} then p.boolean(a.val).value else acc.prefixHasSpace,
      if a.key in {"hide_prefix"} then p.boolean(a.val).value else acc.prefixHidden,
      if a.key in {"force_prefix"} then p.boolean(a.val).value else acc.prefixForced))
  {
    EngFixAcceptedParses(a, p);
  }

  /** `EngFixConfig::from_args` as a fold. */
  function EngFixArgs(args: seq<Arg>, p: Parsers): Result<EngFixConfig, ConfigError> {
    ParseArgs(args, DEFAULT_NUMBER_CONFIG, EngFixStepper(p))
  }

  // ---------------------------------------------------------------------
  // The registry

  /** `new_formatter`: the formatter built from `name` and `args`, created at
      clock reading `now`. */
  function NewFormatterSpec(name: string, args: seq<Arg>, p: Parsers, now: nat)
    : (r: Result<Formatter, ConfigError>)
    ensures r.Success? ==> name in FORMATTER_NAMES
    ensures name !in FORMATTER_NAMES ==> r == Failure(UnknownFormatter(name))
    ensures r.Success? ==>
      && (r.value.Str? <==> name == "str") && (r.value.Bar? <==> name == "bar")
      && (r.value.Eng? <==> name == "eng") && (r.value.Fix? <==> name == "fix")
      && !r.value.FlagFormatter?
  {
    if name == "str" then
      match ParseArgs(args, STR_DEFAULTS, StrStepper(p))
      case Failure(e) => Failure(e)
      case Success(s) => BuildStr(s, now)
    else if name == "bar" then
      match ParseArgs(args, BAR_DEFAULTS, BarStepper(p))
      case Failure(e) => Failure(e)
      case Success(b) => Success(Bar(b))
    else if name == "eng" then
      match EngFixArgs(args, p)
      case Failure(e) => Failure(e)
      case Success(c) => Success(Eng(c))
    else if name == "fix" then
      match EngFixArgs(args, p)
      case Failure(e) => Failure(e)
      case Success(c) => Success(Fix(c))
    else
      Failure(UnknownFormatter(name))
  }

  /** `EngFixConfig::from_args`: the argument loop with early returns. */
  method EngFixFromArgs(args: seq<Arg>, p: Parsers) returns (r: Result<EngFixConfig, ConfigError>)
    ensures r == EngFixArgs(args, p)
  {
    var width := DEFAULT_NUMBER_WIDTH;
    var unit: Option<Unit> := None;
    var unitHasSpace := false;
    var unitHidden := false;
    var prefix: Option<Prefix> := None;
    var prefixHasSpace := false;
    var prefixHidden := false;
    var prefixForced := false;
    var i := 0;
    while i < |args|
      invariant 0 <= i <= |args|
      invariant ParseArgs(args[i..], EngFixConfig(width, unit, unitHasSpace, unitHidden,
                  prefix, prefixHasSpace, prefixHidden, prefixForced), EngFixStepper(p))
                == EngFixArgs(args, p)
    {
      var arg := args[i];
      ghost var cur := EngFixConfig(width, unit, unitHasSpace, unitHidden,
                                    prefix, prefixHasSpace, prefixHidden, prefixForced);
      ParseArgsAt(args, i, cur, EngFixStepper(p));
      assert EngFixStepper(p)(cur, arg) == EngFixStep(cur, arg, p);
      if arg.key in WIDTH_KEYS {
        var parsed := p.usize(arg.val);
        if parsed.None? { assert EngFixStep(cur, arg, p) == Failure(InvalidValue(WIDTH_MESSAGE)); return Failure(InvalidValue(WIDTH_MESSAGE)); }
        width := parsed.value;
      } else if arg.key in UNIT_KEYS {
        var parsed := p.unit(arg.val);
        if parsed.None? { assert EngFixStep(cur, arg, p) == Failure(InvalidUnit(arg.val)); return Failure(InvalidUnit(arg.val)); }
        unit := Some(parsed.value);
      } else if arg.key == "hide_unit" {
        var parsed := p.boolean(arg.val);
        if parsed.None? { assert EngFixStep(cur, arg, p) == Failure(InvalidValue(HIDE_UNIT_MESSAGE)); return Failure(InvalidValue(HIDE_UNIT_MESSAGE)); }
        unitHidden := parsed.value;
      } else if arg.key == "unit_space" {
        var parsed := p.boolean(arg.val);
        if parsed.None? { assert EngFixStep(cur, arg, p) == Failure(InvalidValue(UNIT_SPACE_MESSAGE)); return Failure(InvalidValue(UNIT_SPACE_MESSAGE)); }
        unitHasSpace := parsed.value;
      } else if arg.key in PREFIX_KEYS {
        var parsed := p.prefix(arg.val);
        if parsed.None? { assert EngFixStep(cur, arg, p) == Failure(InvalidPrefix(arg.val)); return Failure(InvalidPrefix(arg.val)); }
        prefix := Some(parsed.value);
      } else if arg.key == "hide_prefix" {
        var parsed := p.boolean(arg.val);
        if parsed.None? { assert EngFixStep(cur, arg, p) == Failure(InvalidValue(HIDE_PREFIX_MESSAGE)); return Failure(InvalidValue(HIDE_PREFIX_MESSAGE)); }
        prefixHidden := parsed.value;
      } else if arg.key == "prefix_space" {
        var parsed := p.boolean(arg.val);
        if parsed.None? { assert EngFixStep(cur, arg, p) == Failure(InvalidValue(PREFIX_SPACE_MESSAGE)); return Failure(InvalidValue(PREFIX_SPACE_MESSAGE)); }
        prefixHasSpace := parsed.value;
      } else if arg.key == "force_prefix" {
        var parsed := p.boolean(arg.val);
        if parsed.None? { assert EngFixStep(cur, arg, p) == Failure(InvalidValue(FORCE_PREFIX_MESSAGE)); return Failure(InvalidValue(FORCE_PREFIX_MESSAGE)); }
        prefixForced := parsed.value;
      } else {
        assert EngFixStep(cur, arg, p) == Failure(UnknownArgument("fix/eng", arg.key));
        return Failure(UnknownArgument("fix/eng", arg.key));
      }
      i := i + 1;
    }
    return Success(EngFixConfig(width, unit, unitHasSpace, unitHidden,
                                prefix, prefixHasSpace, prefixHidden, prefixForced));
  }

  /** `new_formatter`: dispatch on the name, the `str` and `bar` argument
      loops, and the `str` checks. */
  method NewFormatter(name: string, args: seq<Arg>, p: Parsers, now: nat)
    returns (r: Result<Formatter, ConfigError>)
    ensures r == NewFormatterSpec(name, args, p, now)
  {
    if name == "str" {
      var minWidth := DEFAULT_STR_MIN_WIDTH;
      var maxWidth := DEFAULT_STR_MAX_WIDTH;
      var pango := DEFAULT_STR_PANGO;
      var rotInterval := DEFAULT_STR_ROT_INTERVAL;
      var i := 0;
      while i < |args|
        invariant 0 <= i <= |args|
        invariant ParseArgs(args[i..], StrSettings(minWidth, maxWidth, pango, rotInterval), StrStepper(p))
                  == ParseArgs(args, STR_DEFAULTS, StrStepper(p))
      {
        var arg := args[i];
        assert args[i..] == [arg] + args[i + 1..];
        if arg.key in MIN_WIDTH_KEYS {
          var parsed := p.usize(arg.val);
          if parsed.None? { return Failure(InvalidValue(WIDTH_MESSAGE)); }
          minWidth := parsed.value;
        } else if arg.key in MAX_WIDTH_KEYS {
          var parsed := p.usize(arg.val);
          if parsed.None? { return Failure(InvalidValue(WIDTH_MESSAGE)); }
          maxWidth := parsed.value;
        } else if arg.key == "pango" {
          var parsed := p.boolean(arg.val);
          if parsed.None? { return Failure(InvalidValue(PANGO_MESSAGE)); }
          pango := parsed.value;
        } else if arg.key == "rot_interval" {
          var parsed := p.float(arg.val);
          if parsed.None? { return Failure(InvalidValue(INTERVAL_MESSAGE)); }
          rotInterval := Some(parsed.value);
        } else {
          return Failure(UnknownArgument("str", arg.key));
        }
        i := i + 1;
      }
      if maxWidth < minWidth {
        return Failure(MaxWidthBelowMinWidth);
      }
      if rotInterval.Some? && !AtLeast(rotInterval.value, 0.1) {
        return Failure(IntervalTooSmall);
      }
      var rotIntervalMs: Option<nat> := None;
      if rotInterval.Some? {
        rotIntervalMs := Some(IntervalMs(rotInterval.value));
      }
      return Success(Str(StrFormatter(minWidth, maxWidth, pango, rotIntervalMs, Some(now))));
    } else if name == "bar" {
      var width := DEFAULT_BAR_WIDTH;
      var maxValue := DEFAULT_BAR_MAX_VAL;
      var i := 0;
      while i < |args|
        invariant 0 <= i <= |args|
        invariant ParseArgs(args[i..], BarFormatter(width, maxValue), BarStepper(p))
                  == ParseArgs(args, BAR_DEFAULTS, BarStepper(p))
      {
        var arg := args[i];
        assert args[i..] == [arg] + args[i + 1..];
        if arg.key in WIDTH_KEYS {
          var parsed := p.usize(arg.val);
          if parsed.None? { return Failure(InvalidValue(WIDTH_MESSAGE)); }
          width := parsed.value;
        } else if arg.key == "max_value" {
          var parsed := p.float(arg.val);
          if parsed.None? { return Failure(InvalidValue(MAX_VALUE_MESSAGE)); }
          maxValue := parsed.value;
        } else {
          return Failure(UnknownArgument("bar", arg.key));
        }
        i := i + 1;
      }
      return Success(Bar(BarFormatter(width, maxValue)));
    } else if name == "eng" {
      var c := EngFixFromArgs(args, p);
      if c.Failure? { return Failure(c.error); }
      return Success(Eng(c.value));
    } else if name == "fix" {
      var c := EngFixFromArgs(args, p);
      if c.Failure? { return Failure(c.error); }
      return Success(Fix(c.value));
    } else {
      return Failure(UnknownFormatter(name));
    }
  }

  // ---------------------------------------------------------------------
  // What the parsers mean

  /** With every `str` argument accepted, each setting is the parse of the
      last value given for it (under either alias), or its starting value. */
  lemma {:induction false} StrLastWins(args: seq<Arg>, acc: StrSettings, p: Parsers)
    requires forall j :: 0 <= j < |args| ==> StrAccepts(args[j], p)
    ensures ParseArgs(args, acc, StrStepper(p)) == Success(StrSettings(
      LastParsed(args, MIN_WIDTH_KEYS, p.usize).GetOr(acc.minWidth),
      LastParsed(args, MAX_WIDTH_KEYS, p.usize).GetOr(acc.maxWidth),
      LastParsed(args, {"pango"}, p.boolean).GetOr(acc.pango),
      OrElse(LastParsed(args, {"rot_interval"}, p.float), acc.rotInterval)))
    decreases |args|
  {
    if args != [] {
      var a := args[0];
      StrStepAccepts(acc, a, p);
      LastParsedCons(args, MIN_WIDTH_KEYS, p.usize, acc.minWidth, None);
      LastParsedCons(args, MAX_WIDTH_KEYS, p.usize, acc.maxWidth, None);
      LastParsedCons(args, {"pango"}, p.boolean, acc.pango, None);
      LastParsedCons(args, {"rot_interval"}, p.float, NaN, acc.rotInterval);
      StrLastWins(args[1..], StrStep(acc, a, p).value, p);
    }
  }

  /** With every `bar` argument accepted, width and maximum are the last
      values given, or their starting values. */
  lemma {:induction false} BarLastWins(args: seq<Arg>, acc: BarFormatter, p: Parsers)
    requires forall j :: 0 <= j < |args| ==> BarAccepts(args[j], p)
    ensures ParseArgs(args, acc, BarStepper(p)) == Success(BarFormatter(
      LastParsed(args, WIDTH_KEYS, p.usize).GetOr(acc.width),
      LastParsed(args, {"max_value"}, p.float).GetOr(acc.maxValue)))
    decreases |args|
  {
    if args != [] {
      var a := args[0];
      BarStepAccepts(acc, a, p);
      LastParsedCons(args, WIDTH_KEYS, p.usize, acc.width, None);
      LastParsedCons(args, {"max_value"}, p.float, acc.maxValue, None);
      BarLastWins(args[1..], BarStep(acc, a, p).value, p);
    }
  }

  /** With every `eng`/`fix` argument accepted, each field is the last value
      given for it (under either alias), or its starting value. */
  lemma {:induction false} EngFixLastWins(args: seq<Arg>, acc: EngFixConfig, p: Parsers)
    requires forall j :: 0 <= j < |args| ==> EngFixAccepts(args[j], p)
    ensures ParseArgs(args, acc, EngFixStepper(p)) == Success(EngFixConfig(
      LastParsed(args, WIDTH_KEYS, p.usize).GetOr(acc.width),
      OrElse(LastParsed(args, UNIT_KEYS, p.unit), acc.unit),
      LastParsed(args, {"unit_space"}, p.boolean).GetOr(acc.unitHasSpace),
      LastParsed(args, {"hide_unit"}, p.boolean).GetOr(acc.unitHidden),
      OrElse(LastParsed(args, PREFIX_KEYS, p.prefix), acc.prefix),
      LastParsed(args, {"prefix_space"}, p.boolean).GetOr(acc.prefixHasSpace),
      LastParsed(args, {"hide_prefix"}, p.boolean).GetOr(acc.prefixHidden),
      LastParsed(args, {"force_prefix"}, p.boolean).GetOr(acc.prefixForced)))
    decreases |args|
  {
    if args != [] {
      var a := args[0];
      EngFixStepUpdates(acc, a, p);
      forall j | 0 <= j < |args|
        ensures args[j].key in WIDTH_KEYS ==> p.usize(args[j].val).Some?
        ensures args[j].key in UNIT_KEYS ==> p.unit(args[j].val).Some?
        ensures args[j].key in PREFIX_KEYS ==> p.prefix(args[j].val).Some?
        ensures args[j].key in ENG_FIX_FLAG_KEYS ==> p.boolean(args[j].val).Some?
      {
        EngFixAcceptedParses(args[j], p);
      }
      LastParsedCons(args, WIDTH_KEYS, p.usize, acc.width, None);
      LastParsedCons(args, UNIT_KEYS, p.unit, NoUnit, acc.unit);
      LastParsedCons(args, {"unit_space"}, p.boolean, acc.unitHasSpace, None);
      LastParsedCons(args, {"hide_unit"}, p.boolean, acc.unitHidden, None);
      LastParsedCons(args, PREFIX_KEYS, p.prefix, One, acc.prefix);
      LastParsedCons(args, {"prefix_space"}, p.boolean, acc.prefixHasSpace, None);
      LastParsedCons(args, {"hide_prefix"}, p.boolean, acc.prefixHidden, None);
      LastParsedCons(args, {"force_prefix"}, p.boolean, acc.prefixForced, None);
      EngFixLastWins(args[1..], EngFixStep(acc, a, p).value, p);
    }
  }

  /** `new_formatter("str", args)` with every argument accepted: the
      settings are the last values given or the defaults; a maximum width
      below the minimum, then an interval that is not at least 0.1 s (NaN
      included), are rejected; otherwise the formatter records the creation
      time. */
  lemma StrConstruction(args: seq<Arg>, p: Parsers, now: nat)
    requires forall j :: 0 <= j < |args| ==> StrAccepts(args[j], p)
    ensures
      var minWidth := LastParsed(args, MIN_WIDTH_KEYS, p.usize).GetOr(DEFAULT_STR_MIN_WIDTH);
      var maxWidth := LastParsed(args, MAX_WIDTH_KEYS, p.usize).GetOr(DEFAULT_STR_MAX_WIDTH);
      var pango := LastParsed(args, {"pango"}, p.boolean).GetOr(DEFAULT_STR_PANGO);
      var rot := LastParsed(args, {"rot_interval"}, p.float);
      var r := NewFormatterSpec("str", args, p, now);
      && (r == Failure(MaxWidthBelowMinWidth) <==> maxWidth < minWidth)
      && (r == Failure(IntervalTooSmall) <==> minWidth <= maxWidth && rot.Some? && !AtLeast(rot.value, 0.1))
      && (r.Success? ==>
            r.value == Str(StrFormatter(minWidth, maxWidth, pango,
                                        if rot.Some? then Some(IntervalMs(rot.value)) else None,
                                        Some(now))))
  {
    StrLastWins(args, STR_DEFAULTS, p);
  }

  /** `new_formatter("bar", args)` with every argument accepted. */
  lemma BarConstruction(args: seq<Arg>, p: Parsers, now: nat)
    requires forall j :: 0 <= j < |args| ==> BarAccepts(args[j], p)
    ensures NewFormatterSpec("bar", args, p, now) == Success(Bar(BarFormatter(
      LastParsed(args, WIDTH_KEYS, p.usize).GetOr(DEFAULT_BAR_WIDTH),
      LastParsed(args, {"max_value"}, p.float).GetOr(DEFAULT_BAR_MAX_VAL))))
  {
    BarLastWins(args, BAR_DEFAULTS, p);
  }

  /** `new_formatter("eng" | "fix", args)` with every argument accepted: no
      cross-field check, every field is the last value given or its default. */
  lemma EngFixConstruction(name: string, args: seq<Arg>, p: Parsers, now: nat)
    requires name == "eng" || name == "fix"
    requires forall j :: 0 <= j < |args| ==> EngFixAccepts(args[j], p)
    ensures
      var c := EngFixConfig(
        LastParsed(args, WIDTH_KEYS, p.usize).GetOr(DEFAULT_NUMBER_WIDTH),
        LastParsed(args, UNIT_KEYS, p.unit),
        LastParsed(args, {"unit_space"}, p.boolean).GetOr(false),
        LastParsed(args, {"hide_unit"}, p.boolean).GetOr(false),
        LastParsed(args, PREFIX_KEYS, p.prefix),
        LastParsed(args, {"prefix_space"}, p.boolean).GetOr(false),
        LastParsed(args, {"hide_prefix"}, p.boolean).GetOr(false),
        LastParsed(args, {"force_prefix"}, p.boolean).GetOr(false));
      NewFormatterSpec(name, args, p, now) == Success(if name == "eng" then Eng(c) else Fix(c))
  {
    EngFixLastWins(args, DEFAULT_NUMBER_CONFIG, p);
  }

  /** The first argument `str` does not accept decides the error: its key
      when unknown, or the message of the value it failed to parse. */
  lemma StrFirstRejected(args: seq<Arg>, p: Parsers, now: nat, k: nat)
    requires k < |args|
    requires forall j :: 0 <= j < k ==> StrAccepts(args[j], p)
    requires !StrAccepts(args[k], p)
    ensures NewFormatterSpec("str", args, p, now) == Failure(StrRejection(args[k]))
  {
    forall j, s | 0 <= j < k ensures StrStepper(p)(s, args[j]).Success? {
      StrStepAccepts(s, args[j], p);
    }
    forall s ensures StrStepper(p)(s, args[k]) == Failure(StrRejection(args[k])) {
      StrStepAccepts(s, args[k], p);
    }
    ParseStopsAtFirstFailure(args, STR_DEFAULTS, StrStepper(p), k, StrRejection(args[k]));
  }

  /** The first argument `bar` does not accept decides the error. */
  lemma BarFirstRejected(args: seq<Arg>, p: Parsers, now: nat, k: nat)
    requires k < |args|
    requires forall j :: 0 <= j < k ==> BarAccepts(args[j], p)
    requires !BarAccepts(args[k], p)
    ensures NewFormatterSpec("bar", args, p, now) == Failure(BarRejection(args[k]))
  {
    forall j, s | 0 <= j < k ensures BarStepper(p)(s, args[j]).Success? {
      BarStepAccepts(s, args[j], p);
    }
    forall s ensures BarStepper(p)(s, args[k]) == Failure(BarRejection(args[k])) {
      BarStepAccepts(s, args[k], p);
    }
    ParseStopsAtFirstFailure(args, BAR_DEFAULTS, BarStepper(p), k, BarRejection(args[k]));
  }

  /** The first argument `eng`/`fix` does not accept decides the error. */
  lemma EngFixFirstRejected(name: string, args: seq<Arg>, p: Parsers, now: nat, k: nat)
    requires name == "eng" || name == "fix"
    requires k < |args|
    requires forall j :: 0 <= j < k ==> EngFixAccepts(args[j], p)
    requires !EngFixAccepts(args[k], p)
    ensures NewFormatterSpec(name, args, p, now) == Failure(EngFixRejection(args[k]))
  {
    forall j, s | 0 <= j < k ensures EngFixStepper(p)(s, args[j]).Success? {
      EngFixStepAccepts(s, args[j], p);
    }
    forall s ensures EngFixStepper(p)(s, args[k]) == Failure(EngFixRejection(args[k])) {
      EngFixStepAccepts(s, args[k], p);
    }
    ParseStopsAtFirstFailure(args, DEFAULT_NUMBER_CONFIG, EngFixStepper(p), k, EngFixRejection(args[k]));
  }

  /** With no arguments every formatter takes its defaults; `str` also
      records its creation time, unlike `DEFAULT_STRING_FORMATTER`. */
  lemma DefaultsWithoutArguments(p: Parsers, now: nat)
    ensures NewFormatterSpec("str", [], p, now) == Success(Str(DEFAULT_STRING_FORMATTER.(initTime := Some(now))))
    ensures NewFormatterSpec("bar", [], p, now) == Success(Bar(BarFormatter(5, Finite(100.0))))
    ensures NewFormatterSpec("eng", [], p, now) == Success(DEFAULT_NUMBER_FORMATTER)
    ensures NewFormatterSpec("fix", [], p, now) == Success(Fix(DEFAULT_NUMBER_CONFIG))
  {
  }

  /** `str` with an unknown key `bogus` fails naming that key. */
  lemma UnknownKeyRejected(p: Parsers, now: nat)
    ensures NewFormatterSpec("str", [Arg("bogus", "1")], p, now) == Failure(UnknownArgument("str", "bogus"))
  {
    assert !StrAccepts(Arg("bogus", "1"), p);
    StrFirstRejected([Arg("bogus", "1")], p, now, 0);
  }

  /** `str` with `min_width=5` and `max_width=2` is rejected. */
  lemma InvertedWidthsRejected(p: Parsers, now: nat)
    requires p.usize("5") == Some(5) && p.usize("2") == Some(2)
    ensures NewFormatterSpec("str", [Arg("min_width", "5"), Arg("max_width", "2")], p, now)
            == Failure(MaxWidthBelowMinWidth)
  {
    var args := [Arg("min_width", "5"), Arg("max_width", "2")];
    assert StrAccepts(args[0], p) && StrAccepts(args[1], p);
    StrConstruction(args, p, now);
    assert LastValue(args, MIN_WIDTH_KEYS) == Some("5");
    assert LastValue(args, MAX_WIDTH_KEYS) == Some("2");
  }
}
