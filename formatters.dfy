/** The `Formatter` trait over the closed set of formatters: `format`
    dispatches on the variant, `interval` reports how often a rotating `str`
    formatter wants to be re-rendered. */
module Formatters {
  import opened Wrappers
  import opened Values
  import opened FormatterTypes
  import opened FormatterArgs
  import StrFormat
  import BarFormat
  import EngFormat

  /** The name a formatter goes by in its error messages. */
  function Name(f: Formatter): string {
    match f
    case Str(_) => "str"
    case Bar(_) => "bar"
    case Eng(_) => "eng"
    case Fix(_) => "fix"
    case FlagFormatter => "flag"
  }

  /** What `format` assumes: a `str` formatter rotating the text divides by
      its interval, and the flag formatter is only ever given flags. */
  predicate CanFormat(f: Formatter, v: Value) {
    (f.Str? && v.Text? && StrFormat.Rotates(f.str, |v.text|) ==> StrFormat.Usable(f.str))
    && (f.FlagFormatter? ==> v.Flag?)
  }

  /** `Formatter::format` at clock reading `now`, escaping with `esc`. */
  function Format(f: Formatter, v: Value, now: nat, esc: char -> string, ops: EngFormat.NumericOps)
    : (r: Result<string, FormatError>)
    requires CanFormat(f, v)
    ensures r.Success? <==>
      || (f.Str? && (v.Text? || v.Icon?))
      || (f.Bar? && v.Number?)
      || (f.Eng? && v.Number? && (f.eng.unit.None? || ops.convert(v.unit, v.val, f.eng.unit.value).Some?))
      || f.FlagFormatter?
    ensures r.Failure? && r.error.CannotFormat? ==> r.error == CannotFormat(KindOf(v), Name(f))
    ensures r.Failure? && !r.error.CannotFormat? ==> v.Number? && (f.Eng? || f.Fix?)
    ensures f.Fix? && v.Number? ==> r == Failure(NotImplemented)
    ensures f.FlagFormatter? ==> r == Success("")
  {
    match f
    case Str(s) => StrFormat.Format(s, v, now, esc)
    case Bar(b) => BarFormat.Format(b, v)
    case Eng(c) => EngFormat.EngSpec(c, v, ops)
    case Fix(c) => EngFormat.FixFormat(c, v)
    case FlagFormatter => EngFormat.FlagFormat(v)
  }

  /** `Formatter::interval`: the rotation interval of a `str` formatter,
      nothing for every other formatter. */
  function Interval(f: Formatter): (r: Option<nat>)
    ensures r.Some? ==> f.Str?
  {
    if f.Str? then f.str.rotIntervalMs else None
  }

  /** Every formatter `new_formatter` builds can format every value (no
      constructed formatter is the flag formatter, and no constructed `str`
      formatter has a zero interval), and asks to be re-rendered at most
      every 100 ms, and only when it is `str`. */
  lemma ConstructedFormattersUsable(name: string, args: seq<Arg>, p: Parsers, now: nat, v: Value)
    requires NewFormatterSpec(name, args, p, now).Success?
    ensures CanFormat(NewFormatterSpec(name, args, p, now).value, v)
    ensures Interval(NewFormatterSpec(name, args, p, now).value).Some? ==>
      name == "str" && Interval(NewFormatterSpec(name, args, p, now).value).value >= 100
  {
    if name == "str" {
      var s := ParseArgs(args, STR_DEFAULTS, StrStepper(p)).value;
      assert BuildStr(s, now).Success?;
    }
  }

  /** The interval of a constructed `str` formatter is the last
      `rot_interval` given, in milliseconds; without one there is none. */
  lemma ConstructedInterval(args: seq<Arg>, p: Parsers, now: nat)
    requires forall j :: 0 <= j < |args| ==> StrAccepts(args[j], p)
    requires NewFormatterSpec("str", args, p, now).Success?
    ensures
      var rot := LastParsed(args, {"rot_interval"}, p.float);
      Interval(NewFormatterSpec("str", args, p, now).value)
        == if rot.Some? then Some(IntervalMs(rot.value)) else None
  {
    StrConstruction(args, p, now);
  }

  /** As written, `new_formatter("str", ["max_width=3", "rot_interval=NaN"])`
      succeeds: `NaN < 0.1` is false and `(NaN * 1e3) as u64` is 0.  The
      formatter then rotates a four-character text with a zero interval, a
      division by zero.  The intended check rejects the arguments. */
  lemma NaNIntervalAccepted(p: Parsers, now: nat)
    requires p.usize("3") == Some(3) && p.float("NaN") == Some(NaN)
    ensures
      var args := [Arg("max_width", "3"), Arg("rot_interval", "NaN")];
      var s := StrSettings(DEFAULT_STR_MIN_WIDTH, 3, DEFAULT_STR_PANGO, Some(NaN));
      var f := StrFormatter(DEFAULT_STR_MIN_WIDTH, 3, DEFAULT_STR_PANGO, Some(0), Some(now));
      && ParseArgs(args, STR_DEFAULTS, StrStepper(p)) == Success(s)
      && BuildStrAsWritten(s, now) == Success(Str(f))
      && StrFormat.Rotates(f, |"abcd"|) && !StrFormat.Usable(f)
      && NewFormatterSpec("str", args, p, now) == Failure(IntervalTooSmall)
  {
    var args := [Arg("max_width", "3"), Arg("rot_interval", "NaN")];
    var s1 := STR_DEFAULTS.(maxWidth := 3);
    assert "max_width" in MAX_WIDTH_KEYS;
    assert StrStep(STR_DEFAULTS, args[0], p) == Success(s1);
    assert StrStep(s1, args[1], p) == Success(s1.(rotInterval := Some(NaN)));
    assert args[1..] == [args[1]] && args[1..][1..] == [];
  }

  /** The default formatters: `str` never rotates (it has no creation time)
      and reports no interval, the number formatter renders numbers, the
      flag formatter renders flags as nothing. */
  lemma DefaultFormatters(now: nat, esc: char -> string, ops: EngFormat.NumericOps, x: real, u: Unit)
    ensures Interval(Str(DEFAULT_STRING_FORMATTER)) == None
    ensures forall t :: !StrFormat.Rotates(DEFAULT_STRING_FORMATTER, t)
    ensures Format(DEFAULT_NUMBER_FORMATTER, Number(x, u), now, esc, ops).Success?
    ensures Format(DEFAULT_FLAG_FORMATTER, Flag, now, esc, ops) == Success("")
  {
  }

  /** The `fix` formatter rejects the number 1. */
  lemma FixScenario(c: EngFixConfig, now: nat, esc: char -> string, ops: EngFormat.NumericOps)
    ensures Format(Fix(c), Number(1.0, NoUnit), now, esc, ops) == Failure(NotImplemented)
  {
  }
}
