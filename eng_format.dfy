/** The `eng`, `fix` and `flag` formatters.  `eng` picks a prefix inside a
    configured window, scales the number, renders it in a width budget and
    appends the prefix and unit symbols.  The unit and prefix arithmetic and
    the rendering of floating-point numerals live outside this file and are
    supplied as a `NumericOps` record. */
module EngFormat {
  import opened Wrappers
  import opened Values
  import opened FormatterTypes

  /** Operations of `Unit`, `Prefix` and `f64` formatting the `eng`
      formatter calls:
      - `convert(from, x, to)`: `Unit::convert`, `None` across dimensions;
      - `clampPrefix(u, p)`: `Unit::clamp_prefix`;
      - `eng(x)`, `engBinary(x)`: `Prefix::eng`, `Prefix::eng_binary`;
      - `apply(p, x)`: `Prefix::apply`;
      - `showFloat(x)`: `format!("{}", x)` of a whole-valued float;
      - `showInt(n)`: `format!("{}", n)` of an `i64`;
      - `showFixed(k, x)`: `x` with exactly `k` decimals, as Rust's precision formatting;
      - `prefixSymbol`, `unitSymbol`: the `Display` of `Prefix` and `Unit`. */
  datatype NumericOps = NumericOps(
    convert: (Unit, real, Unit) -> Option<real>,
    clampPrefix: (Unit, Prefix) -> Prefix,
    eng: real -> Prefix,
    engBinary: real -> Prefix,
    apply: (Prefix, real) -> real,
    showFloat: real -> string,
    showInt: int -> string,
    showFixed: (nat, real) -> string,
    prefixSymbol: Prefix -> string,
    unitSymbol: Unit -> string)

  // ---------------------------------------------------------------------
  // Prefix selection

  /** The admissible prefixes `[lo, hi]`. */
  datatype PrefixWindow = PrefixWindow(lo: Prefix, hi: Prefix)

  /** `(min_prefix, max_prefix)`: the forced prefix alone, a preferred
      prefix and everything above it, or every prefix. */
  function WindowOf(c: EngFixConfig): (w: PrefixWindow)
    ensures Rank(w.lo) <= Rank(w.hi)
  {
    match c.prefix
    case Some(p) => if c.prefixForced then PrefixWindow(p, p) else PrefixWindow(p, MAX_AVAILABLE)
    case None => PrefixWindow(MIN_AVAILABLE, MAX_AVAILABLE)
  }

  /** The prefix engineering notation asks for, in the binary family when
      the window starts at a binary prefix, restricted by the unit. */
  function AutoPrefix(c: EngFixConfig, unit: Unit, val: real, ops: NumericOps): Prefix {
    var lo := WindowOf(c).lo;
    ops.clampPrefix(unit, if IsBinary(lo) then ops.engBinary(val) else ops.eng(val))
  }

  /** The prefix `eng` displays: the automatic prefix clamped into the
      window. */
  function ChosenPrefix(c: EngFixConfig, unit: Unit, val: real, ops: NumericOps): (p: Prefix)
    ensures c.prefix.Some? && c.prefixForced ==> p == c.prefix.value
    ensures c.prefix.Some? ==> Rank(c.prefix.value) <= Rank(p)
    ensures c.prefix.None? ==> p == AutoPrefix(c, unit, val, ops)
    ensures c.prefix.Some? && !c.prefixForced && Rank(c.prefix.value) <= Rank(AutoPrefix(c, unit, val, ops))
      ==> p == AutoPrefix(c, unit, val, ops)
    ensures c.prefix.Some? && !c.prefixForced && Rank(AutoPrefix(c, unit, val, ops)) < Rank(c.prefix.value)
      ==> p == c.prefix.value
  {
    var w := WindowOf(c);
    Clamp(AutoPrefix(c, unit, val, ops), w.lo, w.hi)
  }

  // ---------------------------------------------------------------------
  // Integer digits

  function Pow10(d: nat): (r: nat)
    ensures r >= 1
  {
    if d == 0 then 1 else 10 * Pow10(d - 1)
  }

  /** Number of decimal digits of `n`. */
  function NatDigits(n: nat): (d: nat)
    ensures d >= 1
    decreases n
  {
    if n < 10 then 1 else 1 + NatDigits(n / 10)
  }

  /** `NatDigits` is the `d` with `10^(d-1) <= n < 10^d`, which is
      `floor(log10(n)) + 1`. */
  lemma {:induction false} NatDigitsBounds(n: nat)
    requires n >= 1
    ensures Pow10(NatDigits(n) - 1) <= n < Pow10(NatDigits(n))
    decreases n
  {
    if n >= 10 {
      NatDigitsBounds(n / 10);
      var d := NatDigits(n / 10);
      assert NatDigits(n) == d + 1;
      assert Pow10(d) == 10 * Pow10(d - 1);
    }
  }

  /** `floor(log10(max(x, 1))) + 1`, plus one for the sign of a negative
      number: the characters the integer part of `x` takes. */
  function IntegerDigits(x: real): (d: nat)
    ensures d >= 1
    ensures x >= 1.0 ==> Pow10(d - 1) <= x.Floor < Pow10(d)
    ensures x < 1.0 ==> d == if x < 0.0 then 2 else 1
  {
    var n: nat := if x < 1.0 then 1 else x.Floor;
    NatDigitsBounds(n);
    NatDigits(n) + if x < 0.0 then 1 else 0
  }

  // ---------------------------------------------------------------------
  // Layout

  /** The numeral for a width budget of `budget` characters after the
      integer part: no decimals when the budget is spent, a leading space
      for alignment when one character is left (there is no room for a
      decimal point and a digit), otherwise `budget - 1` decimals. */
  function Numeral(budget: int, val: real, ops: NumericOps): (s: string)
    ensures budget == 1 ==> |s| >= 1 && s[0] == ' ' && s[1..] == ops.showInt(val.Floor)
    ensures budget >= 2 ==> s == ops.showFixed(budget - 1, val)
    ensures budget <= 0 ==> s == ops.showFloat(val.Floor as real)
  {
    if budget <= 0 then ops.showFloat(val.Floor as real)
    else if budget == 1 then " " + ops.showInt(val.Floor)
    else ops.showFixed(budget - 1, val)
  }

  /** The prefix symbol is shown unless hidden or the prefix is the
      identity of its family. */
  predicate DisplayPrefix(c: EngFixConfig, p: Prefix) {
    !c.prefixHidden && p != One && p != OneButBinary
  }

  /** The unit symbol is shown unless hidden or there is no unit. */
  predicate DisplayUnit(c: EngFixConfig, u: Unit) {
    !c.unitHidden && u != NoUnit
  }

  /** A space before the unit: asked for by `unit_space`, or the space
      `prefix_space` asked for before a prefix that is not shown. */
  predicate SpaceBeforeUnit(c: EngFixConfig, p: Prefix) {
    c.unitHasSpace || (c.prefixHasSpace && !DisplayPrefix(c, p))
  }

  function SpaceIf(b: bool): string { if b then " " else "" }

  /** What follows the numeral. */
  function Suffix(c: EngFixConfig, p: Prefix, u: Unit, ops: NumericOps): string {
    (if DisplayPrefix(c, p) then SpaceIf(c.prefixHasSpace) + ops.prefixSymbol(p) else "")
    + (if DisplayUnit(c, u) then SpaceIf(SpaceBeforeUnit(c, p)) + ops.unitSymbol(u) else "")
  }

  /** `EngFormatter::format` as one expression: convert into the configured
      unit, choose and apply the prefix, render the numeral in the width
      budget and append the suffix. */
  function EngSpec(c: EngFixConfig, v: Value, ops: NumericOps): (r: Result<string, FormatError>)
    ensures !v.Number? ==> r == Failure(CannotFormat(KindOf(v), "eng"))
    ensures v.Number? && c.unit.Some? && ops.convert(v.unit, v.val, c.unit.value).None?
      ==> r == Failure(UnitMismatch(v.unit, c.unit.value))
    ensures v.Number? && (c.unit.None? || ops.convert(v.unit, v.val, c.unit.value).Some?) ==> r.Success?
  {
    match v
    case Number(val0, unit0) =>
      var converted := if c.unit.Some? then ops.convert(unit0, val0, c.unit.value) else Some(val0);
      if converted.None? then Failure(UnitMismatch(unit0, c.unit.value))
      else
        var unit := c.unit.GetOr(unit0);
        var prefix := ChosenPrefix(c, unit, converted.value, ops);
        var val := ops.apply(prefix, converted.value);
        Success(Numeral(c.width - IntegerDigits(val), val, ops) + Suffix(c, prefix, unit, ops))
    case Text(_) => Failure(CannotFormat(TextKind, "eng"))
    case Icon(_) => Failure(CannotFormat(IconKind, "eng"))
    case Flag => Failure(CannotFormat(FlagKind, "eng"))
  }

  /** `EngSpec` of a number whose conversion gave `val` in `unit`. */
  lemma EngSpecOfNumber(c: EngFixConfig, v: Value, ops: NumericOps, val: real, unit: Unit)
    requires v.Number?
    requires c.unit.None? ==> val == v.val && unit == v.unit
    requires c.unit.Some? ==> ops.convert(v.unit, v.val, c.unit.value) == Some(val) && unit == c.unit.value
    ensures EngSpec(c, v, ops) == Success(
      Numeral(c.width - IntegerDigits(ops.apply(ChosenPrefix(c, unit, val, ops), val)),
              ops.apply(ChosenPrefix(c, unit, val, ops), val), ops)
      + Suffix(c, ChosenPrefix(c, unit, val, ops), unit, ops))
  {
  }

  /** The tail of `EngFormatter::format`: pushes the prefix and the unit,
      each behind the space its flags ask for, onto the numeral. */
  method PushSymbols(numeral: string, c: EngFixConfig, prefix: Prefix, unit: Unit, ops: NumericOps)
    returns (retval: string)
    ensures retval == numeral + Suffix(c, prefix, unit, ops)
  {
    retval := numeral;
    var displayPrefix := !c.prefixHidden && prefix != One && prefix != OneButBinary;
    var displayUnit := !c.unitHidden && unit != NoUnit;
    if displayPrefix {
      if c.prefixHasSpace {
        retval := retval + " ";
      }
      retval := retval + ops.prefixSymbol(prefix);
    }
    ghost var withPrefix := retval;
    assert withPrefix == numeral + (if DisplayPrefix(c, prefix) then SpaceIf(c.prefixHasSpace) + ops.prefixSymbol(prefix) else "");
    if displayUnit {
      if c.unitHasSpace || (c.prefixHasSpace && !displayPrefix) {
        retval := retval + " ";
      }
      retval := retval + ops.unitSymbol(unit);
    }
    assert retval == withPrefix + (if DisplayUnit(c, unit) then SpaceIf(SpaceBeforeUnit(c, prefix)) + ops.unitSymbol(unit) else "");
  }

  /** `EngFormatter::format`: updates the value and unit in place and builds
      the text by pushing onto it. */
  method Format(c: EngFixConfig, v: Value, ops: NumericOps) returns (r: Result<string, FormatError>)
    ensures r == EngSpec(c, v, ops)
  {
    if !v.Number? {
      return Failure(CannotFormat(KindOf(v), "eng"));
    }
    var val, unit := v.val, v.unit;
    if c.unit.Some? {
      var converted := ops.convert(unit, val, c.unit.value);
      if converted.None? {
        return Failure(UnitMismatch(unit, c.unit.value));
      }
      val := converted.value;
      unit := c.unit.value;
    }

    var minPrefix, maxPrefix := MIN_AVAILABLE, MAX_AVAILABLE;
    if c.prefix.Some? {
      minPrefix := c.prefix.value;
      if c.prefixForced {
        maxPrefix := c.prefix.value;
      }
    }
    var auto := if IsBinary(minPrefix) then ops.engBinary(val) else ops.eng(val);
    var prefix := Clamp(ops.clampPrefix(unit, auto), minPrefix, maxPrefix);
    assert prefix == ChosenPrefix(c, unit, val, ops);
    EngSpecOfNumber(c, v, ops, val, unit);
    val := ops.apply(prefix, val);

    var digits := IntegerDigits(val);
    var budget := c.width - digits;
    var retval;
    if budget <= 0 {
      retval := ops.showFloat(val.Floor as real);
    } else if budget == 1 {
      retval := " " + ops.showInt(val.Floor);
    } else {
      retval := ops.showFixed(budget - 1, val);
    }
    ghost var numeral := retval;
    assert numeral == Numeral(budget, val, ops);

    retval := PushSymbols(retval, c, prefix, unit, ops);
    return Success(retval);
  }

  // ---------------------------------------------------------------------
  // Properties of the layout

  /** The display flags (`hide_unit`, `unit_space`, `hide_prefix`,
      `prefix_space`) change only what follows the numeral: two
      configurations that agree on width, unit and prefix render a number
      with the same numeral and the same prefix and unit, each followed by
      its own suffix. */
  lemma DisplayFlagsOnlyChangeSuffix(c: EngFixConfig, d: EngFixConfig, v: Value, ops: NumericOps)
    requires c.width == d.width && c.unit == d.unit
    requires c.prefix == d.prefix && c.prefixForced == d.prefixForced
    requires EngSpec(c, v, ops).Success?
    ensures EngSpec(d, v, ops).Success?
    ensures exists numeral: string, p: Prefix, u: Unit ::
      && EngSpec(c, v, ops).value == numeral + Suffix(c, p, u, ops)
      && EngSpec(d, v, ops).value == numeral + Suffix(d, p, u, ops)
  {
    var val := if c.unit.Some? then ops.convert(v.unit, v.val, c.unit.value).value else v.val;
    var unit := c.unit.GetOr(v.unit);
    EngSpecOfNumber(c, v, ops, val, unit);
    EngSpecOfNumber(d, v, ops, val, unit);
    assert WindowOf(c) == WindowOf(d);
    var p := ChosenPrefix(c, unit, val, ops);
    assert ChosenPrefix(d, unit, val, ops) == p;
    var x := ops.apply(p, val);
    var numeral := Numeral(c.width - IntegerDigits(x), x, ops);
    assert EngSpec(c, v, ops).value == numeral + Suffix(c, p, unit, ops);
    assert EngSpec(d, v, ops).value == numeral + Suffix(d, p, unit, ops);
  }

  /** With the prefix hidden, `prefix_space` puts the same single space
      before the unit that `unit_space` does. */
  lemma HiddenPrefixSpaceMovesToUnit(c: EngFixConfig, v: Value, ops: NumericOps)
    requires c.prefixHidden
    ensures EngSpec(c.(prefixHasSpace := true, unitHasSpace := false), v, ops)
         == EngSpec(c.(prefixHasSpace := false, unitHasSpace := true), v, ops)
  {
    var c1 := c.(prefixHasSpace := true, unitHasSpace := false);
    var c2 := c.(prefixHasSpace := false, unitHasSpace := true);
    if v.Number? {
      assert WindowOf(c1) == WindowOf(c2) == WindowOf(c);
      forall p: Prefix, u: Unit ensures Suffix(c1, p, u, ops) == Suffix(c2, p, u, ops) {
      }
    }
  }

  /** With both symbols hidden nothing follows the numeral, whatever the
      spacing flags say. */
  lemma HiddenSymbolsLeaveNumeral(c: EngFixConfig, p: Prefix, u: Unit, ops: NumericOps)
    requires c.prefixHidden && c.unitHidden
    ensures Suffix(c, p, u, ops) == ""
  {
  }

  /** An identity prefix is never shown: only the unit follows the numeral,
      behind one space when either `unit_space` or `prefix_space` asks for
      it, and nothing at all when the unit is not shown. */
  lemma IdentityPrefixInvisible(c: EngFixConfig, u: Unit, ops: NumericOps)
    ensures Suffix(c, One, u, ops)
         == if DisplayUnit(c, u) then SpaceIf(c.unitHasSpace || c.prefixHasSpace) + ops.unitSymbol(u) else ""
    ensures Suffix(c, OneButBinary, u, ops)
         == if DisplayUnit(c, u) then SpaceIf(c.unitHasSpace || c.prefixHasSpace) + ops.unitSymbol(u) else ""
  {
  }

  /** Shown prefix and unit are separated by a space exactly when
      `unit_space` is set: `prefix_space` only separates the numeral from
      the prefix. */
  lemma PrefixAndUnitSpacing(c: EngFixConfig, p: Prefix, u: Unit, ops: NumericOps)
    requires DisplayPrefix(c, p) && DisplayUnit(c, u)
    ensures Suffix(c, p, u, ops)
         == SpaceIf(c.prefixHasSpace) + ops.prefixSymbol(p) + SpaceIf(c.unitHasSpace) + ops.unitSymbol(u)
  {
  }

  /** 1536 bytes with `Ki` preferred: at width 3 the budget leaves one
      decimal, `1.5KiB`; at the default width 2 the budget is one character
      and the number is rounded down behind a space, ` 1KiB`. */
  lemma KibibyteScenario(ops: NumericOps)
    requires ops.engBinary(1536.0) == Kibi
    requires ops.clampPrefix(Bytes, Kibi) == Kibi
    requires ops.apply(Kibi, 1536.0) == 1.5
    requires ops.showFixed(1, 1.5) == "1.5" && ops.showInt(1) == "1"
    requires ops.prefixSymbol(Kibi) == "Ki" && ops.unitSymbol(Bytes) == "B"
    ensures EngSpec(DEFAULT_NUMBER_CONFIG.(width := 3, prefix := Some(Kibi)), Number(1536.0, Bytes), ops)
         == Success("1.5KiB")
    ensures EngSpec(DEFAULT_NUMBER_CONFIG.(prefix := Some(Kibi)), Number(1536.0, Bytes), ops)
         == Success(" 1KiB")
  {
    var c3 := DEFAULT_NUMBER_CONFIG.(width := 3, prefix := Some(Kibi));
    var c2 := DEFAULT_NUMBER_CONFIG.(prefix := Some(Kibi));
    assert IsBinary(Kibi);
    assert AutoPrefix(c3, Bytes, 1536.0, ops) == Kibi;
    assert AutoPrefix(c2, Bytes, 1536.0, ops) == Kibi;
    assert ChosenPrefix(c3, Bytes, 1536.0, ops) == Kibi;
    assert ChosenPrefix(c2, Bytes, 1536.0, ops) == Kibi;
    assert (1.5).Floor == 1;
    assert IntegerDigits(1.5) == 1;
    assert Numeral(2, 1.5, ops) == "1.5";
    assert Numeral(1, 1.5, ops) == " 1";
    assert Suffix(c3, Kibi, Bytes, ops) == "KiB";
    assert Suffix(c2, Kibi, Bytes, ops) == "KiB";
    EngSpecOfNumber(c3, Number(1536.0, Bytes), ops, 1536.0, Bytes);
    EngSpecOfNumber(c2, Number(1536.0, Bytes), ops, 1536.0, Bytes);
    assert "1.5" + "KiB" == "1.5KiB";
    assert " 1" + "KiB" == " 1KiB";
  }

  // ---------------------------------------------------------------------
  // fix and flag

  /** `FixFormatter::format`: numbers are not implemented yet, everything
      else is of the wrong kind. */
  function FixFormat(c: EngFixConfig, v: Value): (r: Result<string, FormatError>)
    ensures r.Failure?
    ensures v.Number? <==> r.error == NotImplemented
    ensures !v.Number? ==> r.error == CannotFormat(KindOf(v), "fix")
  {
    match v
    case Number(_, _) => Failure(NotImplemented)
    case Text(_) => Failure(CannotFormat(TextKind, "fix"))
    case Icon(_) => Failure(CannotFormat(IconKind, "fix"))
    case Flag => Failure(CannotFormat(FlagKind, "fix"))
  }

  /** `FlagFormatter::format`: only ever given flags, which render as
      nothing. */
  function FlagFormat(v: Value): (r: Result<string, FormatError>)
    requires v.Flag?
    ensures r.Success? && r.value == ""
  {
    Success("")
  }
}
