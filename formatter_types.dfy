/** The five formatter configurations of `src/formatting/formatter.rs`, the
    closed variant type that replaces `Box<dyn Formatter>`, and the default
    constants. */
module FormatterTypes {
  import opened Wrappers
  import opened Values

  const USIZE_MAX: nat := 0xFFFF_FFFF_FFFF_FFFF
  const U64_MAX: nat := 0xFFFF_FFFF_FFFF_FFFF

  /** Rust's `usize` on a 64-bit target. */
  type Usize = n: nat | n <= USIZE_MAX

  /** `StrFormatter`.  `initTime` is the creation instant as a millisecond
      reading of the caller's clock; `rotIntervalMs` is Rust's `Option<u64>`. */
  datatype StrFormatter = StrFormatter(
    minWidth: Usize,
    maxWidth: Usize,
    pango: bool,
    rotIntervalMs: Option<nat>,
    initTime: Option<nat>)

  /** `BarFormatter`. */
  datatype BarFormatter = BarFormatter(width: Usize, maxValue: F64)

  /** `EngFixConfig`, shared by the `eng` and `fix` formatters. */
  datatype EngFixConfig = EngFixConfig(
    width: Usize,
    unit: Option<Unit>,
    unitHasSpace: bool,
    unitHidden: bool,
    prefix: Option<Prefix>,
    prefixHasSpace: bool,
    prefixHidden: bool,
    prefixForced: bool)

  /** A formatter instance: one variant per implementation of the
      `Formatter` trait. */
  datatype Formatter =
    | Str(str: StrFormatter)
    | Bar(bar: BarFormatter)
    | Eng(eng: EngFixConfig)
    | Fix(fix: EngFixConfig)
    | FlagFormatter

  const DEFAULT_STR_MIN_WIDTH: Usize := 0
  const DEFAULT_STR_MAX_WIDTH: Usize := USIZE_MAX
  const DEFAULT_STR_PANGO: bool := false
  const DEFAULT_STR_ROT_INTERVAL: Option<F64> := None

  const DEFAULT_BAR_WIDTH: Usize := 5
  const DEFAULT_BAR_MAX_VAL: F64 := Finite(100.0)

  const DEFAULT_NUMBER_WIDTH: Usize := 2

  const DEFAULT_STRING_FORMATTER: StrFormatter :=
    StrFormatter(DEFAULT_STR_MIN_WIDTH, DEFAULT_STR_MAX_WIDTH, DEFAULT_STR_PANGO, None, None)

  const DEFAULT_NUMBER_CONFIG: EngFixConfig :=
    EngFixConfig(DEFAULT_NUMBER_WIDTH, None, false, false, None, false, false, false)

  const DEFAULT_NUMBER_FORMATTER: Formatter := Eng(DEFAULT_NUMBER_CONFIG)

  const DEFAULT_FLAG_FORMATTER: Formatter := FlagFormatter
}
