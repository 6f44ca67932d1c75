/** The values a formatter renders and the unit and prefix enumerations they
    carry (`ValueInner`, `Unit` and `Prefix` of the formatting module).
    Only the parts of `Unit` and `Prefix` that the formatters depend on are
    concrete here: the variants, the order of prefixes and which prefixes are
    binary.  Conversion, prefix selection and display are abstract operations
    supplied by the caller (see `EngFormat.NumericOps`). */
module Values {

  /** A physical unit; `NoUnit` is Rust's `Unit::None`. */
  datatype Unit =
    | BitsPerSecond | BytesPerSecond | Percents | Degrees | Seconds
    | Watts | Hertz | Bytes | NoUnit

  /** Metric and binary prefixes, in the order of their declaration, which is
      the order `clamp`, `min_available` and `max_available` use. */
  datatype Prefix =
    | Nano | Micro | Milli | One | OneButBinary
    | Kilo | Kibi | Mega | Mebi | Giga | Gibi | Tera | Tebi

  /** Position of a prefix in the declaration order. */
  function Rank(p: Prefix): (r: nat)
    ensures r <= 12
  {
    match p
    case Nano => 0
    case Micro => 1
    case Milli => 2
    case One => 3
    case OneButBinary => 4
    case Kilo => 5
    case Kibi => 6
    case Mega => 7
    case Mebi => 8
    case Giga => 9
    case Gibi => 10
    case Tera => 11
    case Tebi => 12
  }

  predicate IsBinary(p: Prefix) {
    p in {OneButBinary, Kibi, Mebi, Gibi, Tebi}
  }

  const MIN_AVAILABLE: Prefix := Nano
  const MAX_AVAILABLE: Prefix := Tebi

  /** `Prefix::clamp`: the prefix itself when it lies in `[lo, hi]`,
      otherwise the nearer bound. */
  function Clamp(p: Prefix, lo: Prefix, hi: Prefix): (r: Prefix)
    requires Rank(lo) <= Rank(hi)
    ensures Rank(lo) <= Rank(r) <= Rank(hi)
    ensures Rank(lo) <= Rank(p) <= Rank(hi) ==> r == p
    ensures Rank(p) < Rank(lo) ==> r == lo
    ensures Rank(hi) < Rank(p) ==> r == hi
  {
    if Rank(p) < Rank(lo) then lo
    else if Rank(hi) < Rank(p) then hi
    else p
  }

  /** An `f64` as `str::parse` reads it from configuration text, which
      accepts `inf` and `NaN` besides finite numbers.  `Finite(0.0)` is
      positive zero; `-0` parses to the distinct `NegZero`, which compares
      equal to it but divides to infinities of the opposite sign. */
  datatype F64 = Finite(x: real) | NegZero | PosInf | NegInf | NaN

  /** Infinities and NaN. */
  predicate NonFinite(f: F64) {
    f.PosInf? || f.NegInf? || f.NaN?
  }

  /** `f < y` against a finite `y`; false when `f` is NaN. */
  predicate LessThan(f: F64, y: real) {
    match f
    case Finite(x) => x < y
    case NegZero => 0.0 < y
    case NegInf => true
    case _ => false
  }

  /** `f >= y` against a finite `y`; false when `f` is NaN. */
  predicate AtLeast(f: F64, y: real) {
    match f
    case Finite(x) => x >= y
    case NegZero => 0.0 >= y
    case PosInf => true
    case _ => false
  }

  /** The two comparisons are complementary on every value but NaN, which
      satisfies neither. */
  lemma NaNIncomparable(f: F64, y: real)
    ensures LessThan(f, y) != AtLeast(f, y) <==> !f.NaN?
  {
  }

  /** `ValueInner`: the tagged value a formatter renders. */
  datatype Value =
    | Text(text: string)
    | Number(val: real, unit: Unit)
    | Icon(icon: string)
    | Flag

  /** The variant of a value, as named in the formatters' error messages. */
  datatype ValueKind = TextKind | NumberKind | IconKind | FlagKind

  function KindOf(v: Value): ValueKind {
    match v
    case Text(_) => TextKind
    case Number(_, _) => NumberKind
    case Icon(_) => IconKind
    case Flag => FlagKind
  }

  /** Errors raised while rendering a value (`Error::new_format` and the
      error of `Unit::convert`). */
  datatype FormatError =
    | CannotFormat(kind: ValueKind, formatter: string)
    | UnitMismatch(from: Unit, to: Unit)
    | NotImplemented
}
